/** The few `str` operations the model needs: `upper`, `ljust`/`rjust`, `join`, and the decimal
    text of integers as `str(int)` writes it and `int(str)` reads it. */
module Text {

  /** `\d` restricted to the ASCII digits. */
  predicate IsDigit(c: char) {
    '0' <= c <= '9'
  }

  predicate AllDigits(s: string) {
    forall i :: 0 <= i < |s| ==> IsDigit(s[i])
  }

  /** `str.upper()` of one character, for every character whose upper case is made of ASCII letters:
      `a`-`z`, dotless `\U{131}`, long `\U{17f}`, sharp `\U{df}` and the Latin ligatures U+FB00-U+FB06.
      Every other character is kept. */
  function UpperChar(c: char): (r: string)
    ensures 1 <= |r| <= 3
    ensures c < '\U{80}' ==> r == [if 'a' <= c <= 'z' then (c as int - 32) as char else c]
  {
    if 'a' <= c <= 'z' then [(c as int - 32) as char]
    else if c == '\U{131}' then "I"
    else if c == '\U{17f}' then "S"
    else if c == '\U{df}' then "SS"
    else if c == '\U{fb00}' then "FF"
    else if c == '\U{fb01}' then "FI"
    else if c == '\U{fb02}' then "FL"
    else if c == '\U{fb03}' then "FFI"
    else if c == '\U{fb04}' then "FFL"
    else if c == '\U{fb05}' || c == '\U{fb06}' then "ST"
    else [c]
  }

  /** `s.upper()`: the upper case of every character, in order. */
  function Upper(s: string): (r: string)
    ensures |r| >= |s|
  {
    if s == [] then [] else UpperChar(s[0]) + Upper(s[1..])
  }

  /** ASCII text keeps its length when upper-cased, and only `a`-`z` change, each to its capital. */
  lemma {:induction false} UpperAscii(s: string)
    requires forall i :: 0 <= i < |s| ==> s[i] < '\U{80}'
    ensures |Upper(s)| == |s|
    ensures forall i :: 0 <= i < |s| ==>
      Upper(s)[i] == if 'a' <= s[i] <= 'z' then (s[i] as int - 32) as char else s[i]
    decreases |s|
  {
    if s != [] {
      UpperAscii(s[1..]);
      var r := Upper(s);
      assert r == UpperChar(s[0]) + Upper(s[1..]);
      forall i | 0 <= i < |s|
        ensures r[i] == if 'a' <= s[i] <= 'z' then (s[i] as int - 32) as char else s[i]
      {
        if i > 0 {
          assert r[i] == Upper(s[1..])[i - 1] && s[i] == s[1..][i - 1];
        }
      }
    }
  }

  /** Upper-casing distributes over concatenation. */
  lemma {:induction false} UpperConcat(a: string, b: string)
    ensures Upper(a + b) == Upper(a) + Upper(b)
  {
    if a == [] {
      assert a + b == b;
    } else {
      assert (a + b)[0] == a[0];
      assert (a + b)[1..] == a[1..] + b;
      UpperConcat(a[1..], b);
    }
  }

  /** A string of characters that are their own upper case is its own upper case. */
  lemma {:induction false} UpperOfFixed(s: string)
    requires forall i :: 0 <= i < |s| ==> UpperChar(s[i]) == [s[i]]
    ensures Upper(s) == s
  {
    if s != [] {
      UpperOfFixed(s[1..]);
    }
  }

  /** Every character is a capital `A`-`Z`. */
  predicate AllCapitals(s: string) {
    forall i :: 0 <= i < |s| ==> 'A' <= s[i] <= 'Z'
  }

  /** A string of ASCII capitals is its own upper case. */
  lemma UpperOfCapitals(s: string)
    requires AllCapitals(s)
    ensures Upper(s) == s
  {
    UpperOfFixed(s);
  }

  /** Every character of an upper case is its own upper case. */
  lemma UpperCharFixed(c: char)
    ensures forall i :: 0 <= i < |UpperChar(c)| ==> UpperChar(UpperChar(c)[i]) == [UpperChar(c)[i]]
  {
  }

  /** Upper-casing twice is upper-casing once. */
  lemma {:induction false} UpperIdempotent(s: string)
    ensures Upper(Upper(s)) == Upper(s)
  {
    if s != [] {
      var u := UpperChar(s[0]);
      UpperConcat(u, Upper(s[1..]));
      UpperIdempotent(s[1..]);
      UpperCharFixed(s[0]);
      UpperOfFixed(u);
    }
  }

  /** `fill * n`. */
  function Repeat(fill: char, n: nat): (r: string)
    ensures |r| == n && forall i :: 0 <= i < n ==> r[i] == fill
  {
    if n == 0 then [] else [fill] + Repeat(fill, n - 1)
  }

  /** `s.ljust(width, fill)`: `s`, followed by `fill` up to `width` characters when it is shorter. */
  function LJust(s: string, width: int, fill: char): (r: string)
    ensures |r| == if |s| < width then width else |s|
    ensures r[..|s|] == s
    ensures forall i :: |s| <= i < |r| ==> r[i] == fill
  {
    if |s| < width then s + Repeat(fill, width - |s|) else s
  }

  /** `s.rjust(width, fill)`: `s`, preceded by `fill` up to `width` characters when it is shorter. */
  function RJust(s: string, width: int, fill: char): (r: string)
    ensures |r| == if |s| < width then width else |s|
    ensures r[|r| - |s|..] == s
    ensures forall i :: 0 <= i < |r| - |s| ==> r[i] == fill
  {
    if |s| < width then Repeat(fill, width - |s|) + s else s
  }

  /** `sep.join(parts)`. */
  function Join(sep: string, parts: seq<string>): (r: string)
  {
    if parts == [] then []
    else if |parts| == 1 then parts[0]
    else parts[0] + sep + Join(sep, parts[1..])
  }

  function DigitChar(d: nat): (c: char)
    requires d < 10
    ensures IsDigit(c)
  {
    ('0' as int + d) as char
  }

  function DigitValue(c: char): (d: nat)
    requires IsDigit(c)
    ensures d < 10 && DigitChar(d) == c
  {
    c as int - '0' as int
  }

  /** The decimal digits of `n`, without leading zeros. */
  function Digits(n: nat): (r: string)
    ensures |r| > 0 && AllDigits(r)
    ensures r[0] == '0' ==> n == 0
  {
    if n < 10 then [DigitChar(n)] else Digits(n / 10) + [DigitChar(n % 10)]
  }

  /** The number a string of decimal digits denotes (leading zeros allowed, as `int()` allows them). */
  function DigitsValue(s: string): (n: nat)
    requires AllDigits(s)
  {
    if s == [] then 0 else DigitsValue(s[..|s| - 1]) * 10 + DigitValue(s[|s| - 1])
  }

  /** `str(n)` for an integer. */
  function IntToString(n: int): (r: string)
  {
    if n < 0 then "-" + Digits(-n) else Digits(n)
  }

  /** The strings `int()` reads without error among those the model feeds it: an optional minus
      sign followed by at least one digit. */
  predicate IsIntLiteral(s: string) {
    |s| > 0 &&
    if s[0] == '-' then |s| > 1 && AllDigits(s[1..]) else AllDigits(s)
  }

  /** `int(s)`. */
  function ParseInt(s: string): (n: int)
    requires IsIntLiteral(s)
  {
    if s[0] == '-' then 0 - DigitsValue(s[1..]) as int else DigitsValue(s)
  }

  /** Reading the digits of a number gives the number back. */
  lemma {:induction false} DigitsValueOfDigits(n: nat)
    ensures DigitsValue(Digits(n)) == n
    decreases n
  {
    if n >= 10 {
      var d := Digits(n);
      DigitsValueOfDigits(n / 10);
      assert d[..|d| - 1] == Digits(n / 10);
    }
  }

  /** `str(n)` is an integer literal and `int(str(n)) == n`. */
  lemma IntToStringParses(n: int)
    ensures IsIntLiteral(IntToString(n)) && ParseInt(IntToString(n)) == n
  {
    var s := IntToString(n);
    if n < 0 {
      assert s[1..] == Digits(-n);
      DigitsValueOfDigits(-n);
    } else {
      DigitsValueOfDigits(n);
    }
  }

  /** Between two parts, a join of several parts places the separator right after the first. */
  lemma JoinCons(sep: string, first: string, rest: seq<string>)
    requires rest != []
    ensures Join(sep, [first] + rest) == first + sep + Join(sep, rest)
  {
    assert ([first] + rest)[1..] == rest;
  }
}
