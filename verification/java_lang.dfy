/**
 * The fragments of `java.lang` the plugin relies on: fixed-width integers,
 * ASCII case folding, `startsWith`, `replace`, `split(",")`, `Integer.toString`
 * and `Integer.parseInt`.
 *
 * Case folding is modelled on ASCII letters only; Java's Unicode tables and
 * locale rules are not part of this model.
 */
module JavaLang {
  import opened Wrappers

  const INT_MIN: int := -0x8000_0000
  const INT_MAX: int := 0x7fff_ffff
  const SHORT_MIN: int := -0x8000
  const SHORT_MAX: int := 0x7fff
  const LONG_MIN: int := -0x8000_0000_0000_0000
  const LONG_MAX: int := 0x7fff_ffff_ffff_ffff

  /** Java `short`, `int` and `long` values. */
  type i16 = x: int | -0x8000 <= x <= 0x7fff
  type i32 = x: int | -0x8000_0000 <= x <= 0x7fff_ffff
  type i64 = x: int | -0x8000_0000_0000_0000 <= x <= 0x7fff_ffff_ffff_ffff

  /** A Java `byte[]` element. */
  type byte = bv8

  /** Two's-complement wrap-around of an `int` result, as Java's `int` arithmetic does. */
  function Wrap32(n: int): (r: i32)
    ensures (r - n) % 0x1_0000_0000 == 0
    ensures INT_MIN <= n <= INT_MAX ==> r == n
  {
    (n - INT_MIN) % 0x1_0000_0000 + INT_MIN
  }

  /** Two's-complement wrap-around of a `long` result. */
  function Wrap64(n: int): (r: i64)
    ensures (r - n) % 0x1_0000_0000_0000_0000 == 0
    ensures LONG_MIN <= n <= LONG_MAX ==> r == n
  {
    (n - LONG_MIN) % 0x1_0000_0000_0000_0000 + LONG_MIN
  }

  /** `Math.min`, on any of Java's integer types. */
  function Min(a: int, b: int): (m: int)
    ensures m <= a && m <= b && (m == a || m == b)
  {
    if a <= b then a else b
  }

  /** `Math.max`, on any of Java's integer types. */
  function Max(a: int, b: int): (m: int)
    ensures m >= a && m >= b && (m == a || m == b)
  {
    if a >= b then a else b
  }

  /** The exceptions the modelled code throws or catches, by class. */
  datatype Throwable =
    | ClassCastException(message: string)
    | IllegalArgumentException(message: string)
    | IllegalStateException(message: string)
    | NullPointerException(message: string)
    | SQLException(message: string)
    | StringIndexOutOfBoundsException(message: string)

  // ---------------------------------------------------------------------------
  // Characters and strings

  predicate IsUpper(c: char) { 'A' <= c <= 'Z' }
  predicate IsLower(c: char) { 'a' <= c <= 'z' }

  function ToLowerChar(c: char): (r: char)
    ensures !IsUpper(r)
    ensures IsUpper(c) ==> r as int == c as int + 32
    ensures !IsUpper(c) ==> r == c
  {
    if IsUpper(c) then (c as int + 32) as char else c
  }

  function ToUpperChar(c: char): (r: char)
    ensures !IsLower(r)
    ensures IsLower(c) ==> r as int == c as int - 32
    ensures !IsLower(c) ==> r == c
  {
    if IsLower(c) then (c as int - 32) as char else c
  }

  /** `String.toLowerCase()` on ASCII letters. */
  function ToLower(s: string): (r: string)
    ensures |r| == |s|
    ensures forall i :: 0 <= i < |s| ==> r[i] == ToLowerChar(s[i])
  {
    seq(|s|, i requires 0 <= i < |s| => ToLowerChar(s[i]))
  }

  /** `String.toUpperCase(Locale.ENGLISH)` on ASCII letters. */
  function ToUpper(s: string): (r: string)
    ensures |r| == |s|
    ensures forall i :: 0 <= i < |s| ==> r[i] == ToUpperChar(s[i])
  {
    seq(|s|, i requires 0 <= i < |s| => ToUpperChar(s[i]))
  }

  /** `String.equalsIgnoreCase`: equal lengths and equal letters up to case. */
  predicate EqualsIgnoreCase(a: string, b: string) {
    ToLower(a) == ToLower(b)
  }

  /** `String.startsWith(prefix)`. */
  predicate StartsWith(s: string, prefix: string) {
    |prefix| <= |s| && s[..|prefix|] == prefix
  }

  /** `String.replace("--", "")`: removes every non-overlapping "--", scanning left to right. */
  function StripDoubleDashes(s: string): (r: string)
    ensures |r| <= |s|
    ensures forall c :: c in r ==> c in s
  {
    if |s| >= 2 && s[0] == '-' && s[1] == '-' then StripDoubleDashes(s[2..])
    else if |s| == 0 then ""
    else [s[0]] + StripDoubleDashes(s[1..])
  }

  /** The pieces of `s` between commas, keeping empty pieces. */
  function SplitAll(s: string): (r: seq<string>)
    ensures |r| >= 1
    ensures forall i :: 0 <= i < |r| ==> ',' !in r[i]
  {
    if |s| == 0 then [""]
    else if s[0] == ',' then [""] + SplitAll(s[1..])
    else
      var rest := SplitAll(s[1..]);
      [[s[0]] + rest[0]] + rest[1..]
  }

  function DropTrailingEmpty(parts: seq<string>): (r: seq<string>)
    ensures |r| <= |parts| && r == parts[..|r|]
    ensures |r| > 0 ==> r[|r| - 1] != ""
    ensures forall i :: |r| <= i < |parts| ==> parts[i] == ""
  {
    if |parts| == 0 then []
    else if parts[|parts| - 1] == "" then DropTrailingEmpty(parts[..|parts| - 1])
    else parts
  }

  /**
   * `s.split(",")`: the pieces between commas with trailing empty pieces
   * removed; a string without any comma splits into itself (so "" gives [""]).
   */
  function SplitOnComma(s: string): (r: seq<string>)
    ensures ',' !in s ==> r == [s]
    ensures forall i :: 0 <= i < |r| ==> ',' !in r[i]
  {
    if ',' !in s then [s] else DropTrailingEmpty(SplitAll(s))
  }

  /** `String.join(",", parts)`. */
  function JoinComma(parts: seq<string>): (s: string)
    ensures |parts| >= 2 ==> ',' in s
  {
    if |parts| == 0 then ""
    else if |parts| == 1 then parts[0]
    else
      var rest := JoinComma(parts[1..]);
      assert (parts[0] + [',']) [|parts[0]|] == ',';
      parts[0] + [','] + rest
  }

  /** A piece without commas splits into itself, and a comma after it starts the next piece. */
  lemma {:induction false} SplitAllPiece(p: string, tail: Option<string>)
    requires ',' !in p
    ensures tail.None? ==> SplitAll(p) == [p]
    ensures tail.Some? ==> SplitAll(p + [','] + tail.value) == [p] + SplitAll(tail.value)
  {
    if |p| > 0 {
      SplitAllPiece(p[1..], tail);
      assert [p[0]] + p[1..] == p;
      if tail.Some? {
        var s := p + [','] + tail.value;
        assert s[0] == p[0] && s[1..] == p[1..] + [','] + tail.value;
        var rest := SplitAll(s[1..]);
        assert rest == [p[1..]] + SplitAll(tail.value);
        assert rest[0] == p[1..] && rest[1..] == SplitAll(tail.value);
      }
    } else if tail.Some? {
      assert [','] + tail.value == p + [','] + tail.value;
      assert ([','] + tail.value)[1..] == tail.value;
    }
  }

  /** Splitting comma-free pieces joined by commas gives the pieces back, empty ones included. */
  lemma {:induction false} SplitAllJoin(parts: seq<string>)
    requires |parts| > 0
    requires forall i :: 0 <= i < |parts| ==> ',' !in parts[i]
    ensures SplitAll(JoinComma(parts)) == parts
  {
    if |parts| == 1 {
      SplitAllPiece(parts[0], None);
    } else {
      SplitAllJoin(parts[1..]);
      SplitAllPiece(parts[0], Some(JoinComma(parts[1..])));
    }
  }

  /**
   * `String.join(",", parts).split(",")` gives back non-empty comma-free
   * pieces: nothing is trailing-empty to drop.
   */
  lemma SplitJoinRoundTrip(parts: seq<string>)
    requires |parts| > 0
    requires forall i :: 0 <= i < |parts| ==> ',' !in parts[i] && parts[i] != ""
    ensures SplitOnComma(JoinComma(parts)) == parts
  {
    SplitAllJoin(parts);
    if ',' !in JoinComma(parts) {
      assert |parts| == 1;
    }
  }

  // ---------------------------------------------------------------------------
  // Decimal integers

  predicate IsDigit(c: char) { '0' <= c <= '9' }

  predicate AllDigits(s: string) {
    forall i :: 0 <= i < |s| ==> IsDigit(s[i])
  }

  function DigitChar(d: nat): (c: char)
    requires d < 10
    ensures IsDigit(c)
  {
    ('0' as int + d) as char
  }

  function DigitValue(c: char): (d: nat)
    requires IsDigit(c)
    ensures d < 10
  {
    c as int - '0' as int
  }

  /** The value of a non-empty run of decimal digits, most significant first. */
  function DigitsValue(s: string): nat
    requires AllDigits(s)
  {
    if |s| == 0 then 0 else DigitsValue(s[..|s| - 1]) * 10 + DigitValue(s[|s| - 1])
  }

  function NatToString(n: nat): (s: string)
    ensures |s| >= 1 && AllDigits(s)
  {
    if n < 10 then [DigitChar(n)] else NatToString(n / 10) + [DigitChar(n % 10)]
  }

  /** `Integer.toString(n)`. */
  function IntToString(n: int): (s: string)
    ensures |s| >= 1
    ensures n >= 0 ==> AllDigits(s)
    ensures n < 0 ==> s[0] == '-' && |s| >= 2 && AllDigits(s[1..])
  {
    if n < 0 then "-" + NatToString(-n) else NatToString(n)
  }

  /** The digits of a decimal numeral: what follows an optional leading sign. */
  function Magnitude(s: string): (m: string)
    ensures |m| == |s| || |m| == |s| - 1
  {
    if |s| >= 1 && (s[0] == '-' || s[0] == '+') then s[1..] else s
  }

  /** A decimal numeral: an optional sign followed by at least one digit. */
  predicate IsNumeral(s: string) {
    |Magnitude(s)| >= 1 && AllDigits(Magnitude(s))
  }

  /** The value a numeral denotes, negative exactly when it starts with `-`. */
  function NumeralValue(s: string): int
    requires IsNumeral(s)
  {
    if s[0] == '-' then -(DigitsValue(Magnitude(s)) as int) else DigitsValue(Magnitude(s))
  }

  /**
   * `Integer.parseInt(s)`: an optional sign, at least one digit, and a value
   * that fits in an `int`; anything else is a `NumberFormatException` (None).
   */
  function ParseInt(s: string): (r: Option<i32>)
    ensures r.Some? <==> IsNumeral(s) && INT_MIN <= NumeralValue(s) <= INT_MAX
    ensures r.Some? ==> r.value as int == NumeralValue(s)
    ensures r.Some? ==> |s| >= 1
    ensures r.Some? && AllDigits(s) ==> r.value as int == DigitsValue(s)
  {
    if |s| == 0 then None
    else
      var signed := s[0] == '-' || s[0] == '+';
      var body := if signed then s[1..] else s;
      if |body| == 0 || !AllDigits(body) then None
      else
        var v: int := if s[0] == '-' then -(DigitsValue(body) as int) else DigitsValue(body);
        if INT_MIN <= v <= INT_MAX then Some(v) else None
  }

  /**
   * A sign in front of a digit string: `+` changes nothing, `-` negates, and
   * `-2147483648` is the one numeral whose magnitude exceeds `Integer.MAX_VALUE`
   * and still parses.
   */
  lemma ParseIntSigns(d: string)
    requires |d| >= 1 && AllDigits(d)
    ensures ParseInt("+" + d) == ParseInt(d)
    ensures ParseInt(d).Some? <==> DigitsValue(d) <= INT_MAX
    ensures ParseInt("-" + d).Some? <==> DigitsValue(d) <= -INT_MIN
    ensures ParseInt("-" + d).Some? ==> ParseInt("-" + d).value as int == -(DigitsValue(d) as int)
  {
  }

  /** A character other than a digit anywhere after the first position is refused. */
  lemma ParseIntRejectsNonDigit(s: string, i: nat)
    requires 1 <= i < |s| && !IsDigit(s[i])
    ensures ParseInt(s) == None
  {
  }

  /** A first character that is neither a sign nor a digit is refused. */
  lemma ParseIntRejectsLeadingJunk(s: string)
    requires |s| >= 1 && s[0] != '-' && s[0] != '+' && !IsDigit(s[0])
    ensures ParseInt(s) == None
  {
  }

  lemma {:induction false} DigitsOfNatToString(n: nat)
    ensures DigitsValue(NatToString(n)) == n
  {
    if n < 10 {
    } else {
      var s := NatToString(n);
      var p := NatToString(n / 10);
      assert s == p + [DigitChar(n % 10)];
      assert s[..|s| - 1] == p;
      DigitsOfNatToString(n / 10);
    }
  }

  /** `Integer.parseInt(Integer.toString(n)) == n` for every `int`. */
  lemma IntToStringRoundTrip(n: i32)
    ensures ParseInt(IntToString(n)) == Some(n)
  {
    var s := IntToString(n);
    if n < 0 {
      var body := NatToString(-(n as int));
      assert s == "-" + body;
      assert s[1..] == body;
      DigitsOfNatToString(-(n as int));
      assert DigitsValue(body) == -(n as int);
    } else {
      DigitsOfNatToString(n);
      assert IsDigit(s[0]);
      assert s[0] != '-' && s[0] != '+';
      assert DigitsValue(s) == n;
    }
  }
}
