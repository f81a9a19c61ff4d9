/**
 * The few `java.lang.String` and `Integer` operations the text codecs rely on:
 * `String.valueOf(int)`, `Integer.parseInt`, `String.split` on a one-character
 * delimiter, `String.join` and `toUpperCase`.
 */
module Text {
  import opened Wrappers

  /** `Constants.CSV_DELIMITER`. */
  const Delimiter: char := ','

  const IntMin: int := -0x8000_0000
  const IntMax: int := 0x7fff_ffff

  /** The range of a Java `int`. */
  predicate IsInt32(n: int) { IntMin <= n <= IntMax }

  predicate IsDigit(c: char) { '0' <= c <= '9' }

  predicate AllDigits(s: string) { forall i :: 0 <= i < |s| ==> IsDigit(s[i]) }

  function DigitChar(d: nat): (c: char)
    requires d < 10
    ensures IsDigit(c)
  {
    ('0' as int + d) as char
  }

  function DigitValue(c: char): (d: nat)
    requires IsDigit(c)
    ensures d < 10
  {
    c as int - '0' as int
  }

  /** The decimal digits of `n`, most significant first. */
  function NatToString(n: nat): (s: string)
    ensures |s| > 0 && AllDigits(s)
  {
    if n < 10 then [DigitChar(n)] else NatToString(n / 10) + [DigitChar(n % 10)]
  }

  /** `String.valueOf(int)`: a minus sign for negative numbers, then the digits. */
  function IntToString(n: int): string
  {
    if n < 0 then "-" + NatToString(-n) else NatToString(n)
  }

  /** The number a string of decimal digits denotes. */
  function DigitsValue(s: string): nat
    requires AllDigits(s)
  {
    if s == [] then 0 else DigitsValue(s[..|s| - 1]) * 10 + DigitValue(s[|s| - 1])
  }

  /** An optional sign followed by at least one decimal digit, of any magnitude; `None` when `s` is not of that form. */
  function ParseDecimal(s: string): Option<int>
  {
    if |s| > 0 && (s[0] == '-' || s[0] == '+') then
      var digits := s[1..];
      if digits != [] && AllDigits(digits) then
        Some(if s[0] == '-' then -(DigitsValue(digits) as int) else DigitsValue(digits))
      else None
    else if s != [] && AllDigits(s) then Some(DigitsValue(s))
    else None
  }

  /** `Integer.parseInt`: `None` stands for `NumberFormatException` (not a number, or outside the `int` range). */
  function ParseInt(s: string): (r: Option<int>)
    ensures r.Some? ==> IsInt32(r.value)
    ensures r.Some? ==> ParseDecimal(s) == r
    ensures ParseDecimal(s).Some? && IsInt32(ParseDecimal(s).value) ==> r == ParseDecimal(s)
  {
    match ParseDecimal(s)
    case Some(v) => if IsInt32(v) then Some(v) else None
    case None => None
  }

  lemma {:induction false} DigitsValueOfNatToString(n: nat)
    ensures DigitsValue(NatToString(n)) == n
  {
    if n >= 10 {
      DigitsValueOfNatToString(n / 10);
      var s := NatToString(n);
      assert s[..|s| - 1] == NatToString(n / 10);
    }
  }

  /** Printing a number and parsing it back gives the number. */
  lemma ParseDecimalRoundTrip(n: int)
    ensures ParseDecimal(IntToString(n)) == Some(n)
  {
    DigitsValueOfNatToString(if n < 0 then -n else n);
    if n < 0 {
      assert IntToString(n)[1..] == NatToString(-n);
    }
  }

  /** `Integer.parseInt(String.valueOf(n)) == n` for every Java `int`. */
  lemma ParseIntRoundTrip(n: int)
    requires IsInt32(n)
    ensures ParseInt(IntToString(n)) == Some(n)
  {
    ParseDecimalRoundTrip(n);
  }

  /** A printed number is never empty, and holds neither the delimiter nor a letter. */
  lemma IntToStringShape(n: int)
    ensures IntToString(n) != []
    ensures forall i :: 0 <= i < |IntToString(n)| ==> IntToString(n)[i] == '-' || IsDigit(IntToString(n)[i])
  {
  }

  /** The pieces of `s` between occurrences of `d`, in order, empty ones included; there is always at least one. */
  function Pieces(s: string, d: char): (r: seq<string>)
    ensures |r| >= 1
  {
    if s == [] then [""]
    else
      var rest := Pieces(s[1..], d);
      if s[0] == d then [""] + rest else [[s[0]] + rest[0]] + rest[1..]
  }

  /** Drops the empty strings at the end of `p`. */
  function DropTrailingEmpty(p: seq<string>): (r: seq<string>)
    ensures |r| <= |p| && r == p[..|r|]
    ensures r != [] ==> r[|r| - 1] != ""
    ensures forall i :: |r| <= i < |p| ==> p[i] == ""
  {
    if p != [] && p[|p| - 1] == "" then DropTrailingEmpty(p[..|p| - 1]) else p
  }

  /**
   * `s.split(String.valueOf(d))`: the whole string when `d` does not occur in it
   * (so `""` splits into `[""]`), otherwise the pieces between the delimiters
   * with the trailing empty ones dropped.
   */
  function Split(s: string, d: char): seq<string>
  {
    if d !in s then [s] else DropTrailingEmpty(Pieces(s, d))
  }

  /** `String.join`: the parts separated by `d`, with no delimiter after the last one. */
  function Join(parts: seq<string>, d: char): string
  {
    if parts == [] then "" else if |parts| == 1 then parts[0] else parts[0] + [d] + Join(parts[1..], d)
  }

  /** Splitting a delimiter-free prefix off: it becomes the start of the first piece. */
  lemma {:induction false} PiecesOfPlainPrefix(p: string, d: char, rest: string)
    requires d !in p
    ensures Pieces(p + rest, d) == [p + Pieces(rest, d)[0]] + Pieces(rest, d)[1..]
  {
    if p == [] {
      var r := Pieces(rest, d);
      assert p + rest == rest && p + r[0] == r[0];
      assert r == [r[0]] + r[1..];
    } else {
      PiecesOfPlainPrefix(p[1..], d, rest);
      assert (p + rest)[1..] == p[1..] + rest;
      assert [p[0]] + (p[1..] + Pieces(rest, d)[0]) == p + Pieces(rest, d)[0];
    }
  }

  /** Joining delimiter-free parts and cutting at every delimiter gives the parts back. */
  lemma {:induction false} PiecesOfJoin(parts: seq<string>, d: char)
    requires |parts| >= 1
    requires forall i :: 0 <= i < |parts| ==> d !in parts[i]
    ensures Pieces(Join(parts, d), d) == parts
  {
    if |parts| == 1 {
      PiecesOfPlainPrefix(parts[0], d, "");
      assert parts[0] + "" == parts[0];
    } else {
      PiecesOfJoin(parts[1..], d);
      var rest := [d] + Join(parts[1..], d);
      assert Join(parts, d) == parts[0] + rest;
      PiecesOfPlainPrefix(parts[0], d, rest);
      assert rest[1..] == Join(parts[1..], d);
      assert parts[0] + "" == parts[0];
      assert parts == [parts[0]] + parts[1..];
    }
  }

  /** When no part contains the delimiter, it occurs in their join exactly when there are two parts or more. */
  lemma {:induction false} DelimiterInJoin(parts: seq<string>, d: char)
    requires forall i :: 0 <= i < |parts| ==> d !in parts[i]
    ensures d in Join(parts, d) <==> |parts| >= 2
  {
    if |parts| >= 2 {
      assert Join(parts, d)[|parts[0]|] == d;
    }
  }

  /**
   * `String.split` undoes `String.join` when no part contains the delimiter and
   * the last part is not empty (or there is only one part).
   */
  lemma SplitJoin(parts: seq<string>, d: char)
    requires |parts| >= 1
    requires forall i :: 0 <= i < |parts| ==> d !in parts[i]
    requires |parts| >= 2 ==> parts[|parts| - 1] != ""
    ensures Split(Join(parts, d), d) == parts
  {
    DelimiterInJoin(parts, d);
    if |parts| >= 2 {
      PiecesOfJoin(parts, d);
    }
  }

  /**
   * A join whose last part is empty (every part followed by the delimiter)
   * splits back into the parts before it: the trailing empty piece is dropped.
   */
  lemma SplitJoinTrailing(parts: seq<string>, d: char)
    requires |parts| >= 1
    requires forall i :: 0 <= i < |parts| ==> d !in parts[i]
    requires parts[|parts| - 1] != ""
    ensures Split(Join(parts + [""], d), d) == parts
  {
    var all := parts + [""];
    DelimiterInJoin(all, d);
    PiecesOfJoin(all, d);
    assert all[..|all| - 1] == parts;
  }

  function UpperCaseChar(c: char): char
  {
    if 'a' <= c <= 'z' then (c as int - 'a' as int + 'A' as int) as char else c
  }

  /** `String.toUpperCase`, for the ASCII letters. */
  function ToUpperCase(s: string): (r: string)
    ensures |r| == |s|
  {
    seq(|s|, i requires 0 <= i < |s| => UpperCaseChar(s[i]))
  }

  /** Upper-casing leaves a string without lower-case ASCII letters unchanged. */
  lemma ToUpperCaseOfUpper(s: string)
    requires forall i :: 0 <= i < |s| ==> !('a' <= s[i] <= 'z')
    ensures ToUpperCase(s) == s
  {
  }
}
