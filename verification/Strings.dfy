/** Text operations that several parsers share: decimal numerals, cutting at dots and ASCII upper case. */
module Strings {
  import opened Common

  // ---------------------------------------------------------------- decimal numerals without leading zeros

  predicate IsDigit(c: char) {
    '0' <= c <= '9'
  }

  predicate AllDigits(s: string) {
    forall i :: 0 <= i < |s| ==> IsDigit(s[i])
  }

  function DigitChar(n: nat): char
    requires n < 10
  {
    '0' + n as char
  }

  function DigitValue(c: char): nat
    requires IsDigit(c)
  {
    (c - '0') as nat
  }

  /** `str(n)` or `n.to_string()`. */
  function Print(n: nat): string {
    if n < 10 then [DigitChar(n)] else Print(n / 10) + [DigitChar(n % 10)]
  }

  function Value(s: string): nat
    requires AllDigits(s)
  {
    if s == [] then 0 else 10 * Value(s[..|s| - 1]) + DigitValue(s[|s| - 1])
  }

  /** Non-empty, all digits, and no leading zero unless it is the numeral zero. */
  predicate CanonicalNumeral(s: string) {
    s != [] && AllDigits(s) && (|s| == 1 || s[0] != '0')
  }

  lemma {:induction false} PrintIsCanonical(n: nat)
    ensures CanonicalNumeral(Print(n)) && Value(Print(n)) == n
    ensures n > 0 ==> Print(n)[0] != '0'
  {
    if n >= 10 {
      PrintIsCanonical(n / 10);
      assert Print(n)[..|Print(n)| - 1] == Print(n / 10);
    }
  }

  lemma {:induction false} CanonicalIsPrinted(s: string)
    requires CanonicalNumeral(s)
    ensures Print(Value(s)) == s
    ensures |s| > 1 ==> Value(s) > 0
  {
    if |s| == 1 {
      assert s[..0] == [];
      assert s == [DigitChar(Value(s))];
    } else {
      var front := s[..|s| - 1];
      CanonicalIsPrinted(front);
      assert Value(front) > 0 by {
        if |front| == 1 { assert front[..0] == []; }
      }
      assert s == front + [s[|s| - 1]];
    }
  }

  // ---------------------------------------------------------------- cutting at dots

  /** The text before the first dot, and the text after it if there is one. */
  function Cut(s: string): (string, Option<string>) {
    if s == [] then ([], None)
    else if s[0] == '.' then ([], Some(s[1..]))
    else
      var (part, rest) := Cut(s[1..]);
      ([s[0]] + part, rest)
  }

  lemma {:induction false} CutUndotted(s: string, tail: string)
    requires '.' !in s
    ensures Cut(s) == (s, None)
    ensures Cut(s + "." + tail) == (s, Some(tail))
  {
    if s == [] {
      assert (s + "." + tail)[1..] == tail;
    } else {
      CutUndotted(s[1..], tail);
      assert (s + "." + tail)[1..] == s[1..] + "." + tail;
      assert s == [s[0]] + s[1..];
    }
  }

  lemma {:induction false} CutLength(s: string)
    ensures var (part, rest) := Cut(s);
            && (rest.None? ==> part == s)
            && (rest.Some? ==> s == part + "." + rest.value)
            && '.' !in part
  {
    if s != [] && s[0] != '.' {
      CutLength(s[1..]);
      assert s == [s[0]] + s[1..];
    }
  }

  // ---------------------------------------------------------------- ASCII upper case

  function UpperChar(c: char): char {
    if 'a' <= c <= 'z' then c - 32 as char else c
  }

  /** ASCII upper-casing. */
  function Upper(s: string): (r: string)
    ensures |r| == |s|
    ensures IsAscii(s) ==> IsAscii(r)
  {
    seq(|s|, i requires 0 <= i < |s| => UpperChar(s[i]))
  }

  /** Exactly the 26 small letters change, each to its capital. */
  lemma UpperExactly(c: char)
    ensures UpperChar(c) == c <==> c !in "abcdefghijklmnopqrstuvwxyz"
    ensures UpperChar(c) != c ==> 'A' <= UpperChar(c) <= 'Z' && UpperChar(c) as int + 32 == c as int
  {
    var small := "abcdefghijklmnopqrstuvwxyz";
    if 'a' <= c <= 'z' {
      assert small[c as int - 'a' as int] == c;
    }
  }
}
