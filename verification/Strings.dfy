/** The string functions of the Go standard library that the modelled parsers call. */
module Strings {
  import opened Common

  // ---- splitting ----

  function Split(s: string, separator: char): (parts: seq<string>)
    ensures |parts| >= 1
  {
    if s == [] then [[]]
    else if s[0] == separator then [[]] + Split(s[1..], separator)
    else
      var rest := Split(s[1..], separator);
      [[s[0]] + rest[0]] + rest[1..]
  }

  function Join(parts: seq<string>, separator: char): string {
    if parts == [] then []
    else if |parts| == 1 then parts[0]
    else parts[0] + [separator] + Join(parts[1..], separator)
  }

  ghost predicate SplitFree(parts: seq<string>, separator: char) {
    forall i :: 0 <= i < |parts| ==> separator !in parts[i]
  }

  lemma {:induction false} JoinSplit(s: string, separator: char)
    ensures Join(Split(s, separator), separator) == s
    ensures SplitFree(Split(s, separator), separator)
  {
    if s == [] {
    } else {
      var rest := Split(s[1..], separator);
      JoinSplit(s[1..], separator);
      assert s == [s[0]] + s[1..];
      if s[0] == separator {
        var parts := [[]] + rest;
        assert parts[1..] == rest;
        assert Join(parts, separator) == [] + [separator] + Join(rest, separator);
      } else {
        JoinPrepend(s[0], rest, separator);
      }
    }
  }

  lemma JoinPrepend(c: char, rest: seq<string>, separator: char)
    requires rest != []
    ensures Join([[c] + rest[0]] + rest[1..], separator) == [c] + Join(rest, separator)
  {
    var parts := [[c] + rest[0]] + rest[1..];
    assert parts[1..] == rest[1..];
    if |rest| > 1 {
      var tail := Join(rest[1..], separator);
      assert Join(parts, separator) == ([c] + rest[0]) + [separator] + tail;
      assert ([c] + rest[0]) + [separator] + tail == [c] + (rest[0] + [separator] + tail);
    }
  }

  lemma {:induction false} SplitHead(part: string, tail: string, separator: char)
    requires separator !in part
    ensures Split(part, separator) == [part]
    ensures Split(part + [separator] + tail, separator) == [part] + Split(tail, separator)
  {
    var s := part + [separator] + tail;
    if part == [] {
      assert s[1..] == tail;
    } else {
      SplitHead(part[1..], tail, separator);
      assert s[1..] == part[1..] + [separator] + tail;
      assert [part[0]] + part[1..] == part;
      assert ([part[1..]] + Split(tail, separator))[1..] == Split(tail, separator);
    }
  }

  /** Splitting a joined list of separator-free parts gives the parts back. */
  lemma {:induction false} SplitJoin(parts: seq<string>, separator: char)
    requires |parts| >= 1 && SplitFree(parts, separator)
    ensures Split(Join(parts, separator), separator) == parts
  {
    if |parts| == 1 {
      SplitHead(parts[0], [], separator);
    } else {
      SplitHead(parts[0], Join(parts[1..], separator), separator);
      SplitJoin(parts[1..], separator);
    }
  }

  // ---- white space ----

  /** Unicode white space. */
  predicate IsSpace(c: char) {
    || '\t' <= c <= '\r' || c == ' ' || c == '\U{85}' || c == '\U{A0}' || c == '\U{1680}'
    || '\U{2000}' <= c <= '\U{200A}' || c == '\U{2028}' || c == '\U{2029}' || c == '\U{202F}'
    || c == '\U{205F}' || c == '\U{3000}'
  }

  /** The 25 characters with the Unicode property White_Space, by number. */
  lemma SpacesByNumber(c: char)
    ensures IsSpace(c) <==>
            c as int in {9, 10, 11, 12, 13, 32, 133, 160, 5760, 8192, 8193, 8194, 8195, 8196, 8197, 8198, 8199, 8200,
                         8201, 8202, 8232, 8233, 8239, 8287, 12288}
  {
  }

  function TrimLeft(s: string): string {
    if s != [] && IsSpace(s[0]) then TrimLeft(s[1..]) else s
  }

  function TrimRight(s: string): string {
    if s != [] && IsSpace(s[|s| - 1]) then TrimRight(s[..|s| - 1]) else s
  }

  function TrimSpace(s: string): string {
    TrimRight(TrimLeft(s))
  }

  // ---- numbers ----

  const MIN_INT64: int := -0x8000_0000_0000_0000
  const MAX_INT64: int := 0x7fff_ffff_ffff_ffff

  predicate IsDigits(s: string) {
    s != [] && forall i :: 0 <= i < |s| ==> '0' <= s[i] <= '9'
  }

  /** The value of a decimal numeral. */
  function Value(s: string): (n: int)
    requires forall i :: 0 <= i < |s| ==> '0' <= s[i] <= '9'
    ensures n >= 0
  {
    if s == [] then 0 else 10 * Value(s[..|s| - 1]) + (s[|s| - 1] as int - '0' as int)
  }

  /** strconv.ParseInt(s, 10, 64), which is also strconv.Atoi on a 64-bit platform. */
  function ParseInt(s: string): Option<int> {
    var signed := s != [] && (s[0] == '+' || s[0] == '-');
    var digits := if signed then s[1..] else s;
    if !IsDigits(digits) then None
    else
      var n := if signed && s[0] == '-' then -Value(digits) else Value(digits);
      if MIN_INT64 <= n <= MAX_INT64 then Some(n) else None
  }

  function Pow10(n: nat): int {
    if n == 0 then 1 else 10 * Pow10(n - 1)
  }

  /** The sum of the digits, each times the power of ten of its place. */
  function SumOfPlaces(s: string): int {
    if s == [] then 0 else (s[0] as int - 48) * Pow10(|s| - 1) + SumOfPlaces(s[1..])
  }

  lemma {:induction false} SumOfPlacesAppend(s: string, c: char)
    ensures SumOfPlaces(s + [c]) == 10 * SumOfPlaces(s) + (c as int - 48)
  {
    if s == [] {
      assert SumOfPlaces([c]) == (c as int - 48) * Pow10(0) + SumOfPlaces([c][1..]);
    } else {
      var first, place := s[0] as int - 48, Pow10(|s| - 1);
      SumOfPlacesAppend(s[1..], c);
      assert (s + [c])[1..] == s[1..] + [c];
      assert first * (10 * place) == 10 * (first * place);
    }
  }

  lemma {:induction false} ValueIsSumOfPlaces(s: string)
    requires forall i :: 0 <= i < |s| ==> '0' <= s[i] <= '9'
    ensures Value(s) == SumOfPlaces(s)
  {
    if s == [] {
    } else {
      var n := |s| - 1;
      ValueIsSumOfPlaces(s[..n]);
      SumOfPlacesAppend(s[..n], s[n]);
      assert s == s[..n] + [s[n]];
    }
  }

  /** An integer as it is printed: a minus sign if it is negative, and its digits without leading zeros. */
  function Print(n: int): string {
    if n < 0 then "-" + PrintDigits(-n) else PrintDigits(n)
  }

  function PrintDigits(n: nat): string {
    (if n < 10 then [] else PrintDigits(n / 10)) + [(n % 10 + 48) as char]
  }

  lemma {:induction false} DigitsPrinted(n: nat)
    ensures IsDigits(PrintDigits(n)) && Value(PrintDigits(n)) == n
  {
    if n >= 10 {
      DigitsPrinted(n / 10);
      assert PrintDigits(n)[..|PrintDigits(n)| - 1] == PrintDigits(n / 10);
    } else {
      assert PrintDigits(n)[..0] == [];
    }
  }

  lemma ParseSigned(digits: string)
    requires IsDigits(digits)
    ensures ParseInt(digits) == if Value(digits) <= 9223372036854775807 then Some(Value(digits)) else None
    ensures ParseInt("-" + digits) == if Value(digits) <= 9223372036854775808 then Some(-Value(digits)) else None
  {
    assert '0' <= digits[0] <= '9';
    assert ("-" + digits)[1..] == digits;
  }

  lemma ParseNumeral(n: int, digits: string)
    requires IsDigits(digits) && Value(digits) == if n < 0 then -n else n
    ensures ParseInt(if n < 0 then "-" + digits else digits)
         == if -9223372036854775808 <= n <= 9223372036854775807 then Some(n) else None
  {
    ParseSigned(digits);
  }

  /** Parsing reads back what is printed, exactly for the 64-bit integers. */
  lemma ParsePrinted(n: int)
    ensures ParseInt(Print(n))
         == if -9223372036854775808 <= n <= 9223372036854775807 then Some(n) else None
  {
    var digits := PrintDigits(if n < 0 then -n else n);
    assert IsDigits(digits) && Value(digits) == if n < 0 then -n else n by {
      DigitsPrinted(if n < 0 then -n else n);
    }
    assert Print(n) == if n < 0 then "-" + digits else digits;
    ParseNumeral(n, digits);
  }

  predicate AllSpace(s: string) {
    forall i :: 0 <= i < |s| ==> IsSpace(s[i])
  }

  /** Nothing, or neither starting nor ending in white space. */
  predicate IsTrimmed(s: string) {
    s != [] ==> !IsSpace(s[0]) && !IsSpace(s[|s| - 1])
  }

  lemma {:induction false} TrimLeftOf(left: string, s: string)
    requires AllSpace(left) && (s != [] ==> !IsSpace(s[0]))
    ensures TrimLeft(left + s) == s
  {
    if left == [] {
      assert left + s == s;
    } else {
      TrimLeftOf(left[1..], s);
      assert (left + s)[1..] == left[1..] + s;
    }
  }

  lemma {:induction false} TrimRightOf(s: string, right: string)
    requires AllSpace(right) && (s != [] ==> !IsSpace(s[|s| - 1]))
    ensures TrimRight(s + right) == s
  {
    if right == [] {
      assert s + right == s;
    } else {
      var n := |right| - 1;
      TrimRightOf(s, right[..n]);
      assert (s + right)[..|s + right| - 1] == s + right[..n];
    }
  }

  /** Trimming takes off the white space around a trimmed text, and nothing else. */
  lemma TrimOf(left: string, s: string, right: string)
    requires AllSpace(left) && AllSpace(right) && IsTrimmed(s)
    ensures TrimSpace(left + s + right) == s
  {
    if s == [] {
      TrimLeftOf(left + right, []);
      assert left + s + right == (left + right) + [];
    } else {
      TrimLeftOf(left, s + right);
      assert left + s + right == left + (s + right);
      TrimRightOf(s, right);
    }
  }
}
