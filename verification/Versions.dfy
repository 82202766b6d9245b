/** Release versions X.Y.Z (section 2 of Semantic Versioning 2.0.0), parsed by the host with a
    splitting iterator and by the Deck with a regular expression. */
module Versions {
  import opened Common
  import opened Strings

  datatype Version = Version(major: nat, minor: nat, patch: nat)

  datatype Relation = Compatible | UpdateHost | UpdatePlugin | Incompatible | Unknown

  const U64_LIMIT: nat := 0x1_0000_0000_0000_0000

  function Show(v: Version): string {
    Print(v.major) + "." + Print(v.minor) + "." + Print(v.patch)
  }

  predicate Fits(v: Version) {
    v.major < 0x1_0000_0000_0000_0000 && v.minor < 0x1_0000_0000_0000_0000 && v.patch < 0x1_0000_0000_0000_0000
  }

  // ---------------------------------------------------------------- host (Rust)

  /** `str::parse::<u64>`: an optional plus sign and at least one digit, without overflow. */
  function ParseU64(s: string): Option<nat> {
    var digits := if s != [] && s[0] == '+' then s[1..] else s;
    if digits == [] || !AllDigits(digits) || Value(digits) >= U64_LIMIT then None else Some(Value(digits))
  }

  /** The next part of the splitting iterator, parsed; with what is left to split, if anything. */
  function NextNumber(s: string): Option<(nat, Option<string>)> {
    var (part, rest) := Cut(s);
    var n := ParseU64(part);
    if n.None? then None else Some((n.value, rest))
  }

  function HostParse(value: string): Option<Version> {
    var a := NextNumber(value);
    if a.None? || a.value.1.None? then None
    else
      var b := NextNumber(a.value.1.value);
      if b.None? || b.value.1.None? then None
      else
        var c := NextNumber(b.value.1.value);
        if c.None? || c.value.1.Some? then None
        else
          var v := Version(a.value.0, b.value.0, c.value.0);
          if Show(v) != value then None else Some(v)
  }

  /** One step of the splitting iterator. */
  method NextPart(s: string) returns (part: string, rest: Option<string>)
    ensures (part, rest) == Cut(s)
  {
    var i := 0;
    while i < |s| && s[i] != '.'
      invariant 0 <= i <= |s| && '.' !in s[..i]
    {
      i := i + 1;
    }
    if i == |s| {
      assert s[..i] == s;
      CutUndotted(s, []);
      return s, None;
    }
    CutUndotted(s[..i], s[i + 1..]);
    assert s == s[..i] + "." + s[i + 1..];
    return s[..i], Some(s[i + 1..]);
  }

  method Parse(value: string) returns (r: Option<Version>)
    ensures r == HostParse(value)
  {
    var part, rest := NextPart(value);
    var x := ParseU64(part);
    if x.None? || rest.None? { return None; }
    part, rest := NextPart(rest.value);
    var y := ParseU64(part);
    if y.None? || rest.None? { return None; }
    part, rest := NextPart(rest.value);
    var z := ParseU64(part);
    if z.None? || rest.Some? { return None; }
    var v := Version(x.value, y.value, z.value);
    return if Show(v) == value then Some(v) else None;
  }

  /** Only the major and minor numbers matter. */
  function HostRelation(plugin: Version, host: Version): Relation {
    if plugin.major != host.major then Incompatible
    else if plugin.minor > host.minor then UpdateHost
    else if plugin.minor < host.minor then UpdatePlugin
    else Compatible
  }

  function HostCompare(plugin: string, host: string): Relation {
    var p, h := HostParse(plugin), HostParse(host);
    if p.None? || h.None? then Unknown else HostRelation(p.value, h.value)
  }

  lemma NextNumberOf(n: nat, tail: string)
    ensures NextNumber(Print(n)) == if n < U64_LIMIT then Some((n, None)) else None
    ensures NextNumber(Print(n) + "." + tail) == if n < U64_LIMIT then Some((n, Some(tail))) else None
  {
    PrintIsCanonical(n);
    CutUndotted(Print(n), tail);
  }

  /** The host accepts exactly the printed triples of 64-bit numbers. */
  lemma HostParsesExactly(value: string, v: Version)
    ensures HostParse(value) == Some(v) <==> value == Show(v) && Fits(v)
  {
    if value == Show(v) {
      assert value == Print(v.major) + "." + (Print(v.minor) + "." + Print(v.patch));
      NextNumberOf(v.major, Print(v.minor) + "." + Print(v.patch));
      NextNumberOf(v.minor, Print(v.patch));
      NextNumberOf(v.patch, []);
    }
    if HostParse(value) == Some(v) {
      HostParseFits(value);
    }
  }

  lemma HostParseFits(value: string)
    ensures HostParse(value).Some? ==> Fits(HostParse(value).value) && value == Show(HostParse(value).value)
  {
  }

  // ---------------------------------------------------------------- Deck (Python)

  /** The longest text of digits that Python's `int` converts. */
  const MAX_INT_DIGITS: nat := 4300

  /** The value of each decimal digit of Unicode: what `\d` matches and `int` reads. */
  type Digits = char -> Option<nat>

  /** Correct on ASCII; about other characters nothing is assumed. */
  ghost predicate UnicodeDigits(digit: Digits) {
    && (forall c :: IsDigit(c) ==> digit(c) == Some(DigitValue(c)))
    && (forall c :: c < 128 as char && !IsDigit(c) ==> digit(c).None?)
  }

  predicate Digital(digit: Digits, s: string) {
    forall i :: 0 <= i < |s| ==> digit(s[i]).Some?
  }

  /** What the group `(0|[1-9]\d*)` matches: only the first digit must be ASCII. */
  predicate Numeral(digit: Digits, s: string) {
    s == "0" || (s != [] && '1' <= s[0] <= '9' && Digital(digit, s[1..]))
  }

  /** The longest run of digits at the start. */
  function DigitRun(digit: Digits, s: string): nat {
    if s == [] || digit(s[0]).None? then 0 else 1 + DigitRun(digit, s[1..])
  }

  /** The numeral at the start of `s`, and the text after it. */
  function TakeNumeral(digit: Digits, s: string): Option<(string, string)> {
    if s == [] then None
    else if s[0] == '0' then Some((s[..1], s[1..]))
    else if '1' <= s[0] <= '9' then
      DigitRunBound(digit, s[1..]);
      var n := 1 + DigitRun(digit, s[1..]);
      Some((s[..n], s[n..]))
    else None
  }

  datatype Groups = Groups(major: string, minor: string, patch: string)

  /** Full match of the version expression. */
  function DeckMatch(digit: Digits, s: string): Option<Groups> {
    var a := TakeNumeral(digit, s);
    if a.None? || a.value.1 == [] || a.value.1[0] != '.' then None
    else
      var b := TakeNumeral(digit, a.value.1[1..]);
      if b.None? || b.value.1 == [] || b.value.1[0] != '.' then None
      else
        var c := TakeNumeral(digit, b.value.1[1..]);
        if c.None? || c.value.1 != [] then None else Some(Groups(a.value.0, b.value.0, c.value.0))
  }

  function Reading(digit: Digits, s: string): nat
    requires Digital(digit, s)
  {
    if s == [] then 0 else 10 * Reading(digit, s[..|s| - 1]) + digit(s[|s| - 1]).value
  }

  /** `int(s)` on text without spaces or signs; `None` is the `ValueError` it raises. */
  function DeckInt(digit: Digits, s: string): Option<nat> {
    if s == [] || !Digital(digit, s) || |s| > MAX_INT_DIGITS then None else Some(Reading(digit, s))
  }

  function DeckNumbers(digit: Digits, g: Groups): Option<Version> {
    var a, b, c := DeckInt(digit, g.major), DeckInt(digit, g.minor), DeckInt(digit, g.patch);
    if a.None? || b.None? || c.None? then None else Some(Version(a.value, b.value, c.value))
  }

  function DeckRelation(plugin: Version, host: Version): Relation {
    if plugin.major != host.major then Incompatible
    else if plugin.minor > host.minor then UpdateHost
    else if plugin.minor < host.minor then UpdatePlugin
    else Compatible
  }

  /** The Deck's verdict; `None` if `int` raises. */
  function DeckCompare(digit: Digits, plugin: string, host: string): Option<Relation> {
    var p, h := DeckMatch(digit, plugin), DeckMatch(digit, host);
    if p.None? || h.None? then Some(Unknown)
    else
      var v, u := DeckNumbers(digit, p.value), DeckNumbers(digit, h.value);
      if v.None? || u.None? then None else Some(DeckRelation(v.value, u.value))
  }

  lemma {:induction false} DigitRunBound(digit: Digits, s: string)
    ensures DigitRun(digit, s) <= |s| && Digital(digit, s[..DigitRun(digit, s)])
  {
    if s != [] && digit(s[0]).Some? {
      DigitRunBound(digit, s[1..]);
      var n := DigitRun(digit, s[1..]);
      assert s[..n + 1] == [s[0]] + s[1..][..n];
    }
  }

  lemma {:induction false} DigitRunOf(digit: Digits, s: string, tail: string)
    requires Digital(digit, s) && (tail == [] || digit(tail[0]).None?)
    ensures DigitRun(digit, s + tail) == |s|
  {
    if s == [] {
      assert s + tail == tail;
    } else {
      assert (s + tail)[1..] == s[1..] + tail;
      DigitRunOf(digit, s[1..], tail);
    }
  }

  lemma TakesNumeral(digit: Digits, x: string, tail: string)
    requires Numeral(digit, x) && (tail == [] || digit(tail[0]).None?)
    ensures TakeNumeral(digit, x + tail) == Some((x, tail))
  {
    var s := x + tail;
    assert s[0] == x[0] && s[1..] == x[1..] + tail;
    assert s[..|x|] == x && s[|x|..] == tail;
    if x != "0" {
      DigitRunOf(digit, x[1..], tail);
    }
  }

  lemma TakenIsNumeral(digit: Digits, s: string)
    requires TakeNumeral(digit, s).Some?
    ensures var (x, tail) := TakeNumeral(digit, s).value;
            Numeral(digit, x) && s == x + tail
  {
    if s[0] != '0' {
      DigitRunBound(digit, s[1..]);
      var n := DigitRun(digit, s[1..]);
      assert s[..n + 1][1..] == s[1..][..n];
    }
  }

  lemma Joined(s: string, x: string, t: string, y: string, u: string, z: string)
    requires t != [] && t[0] == '.' && u != [] && u[0] == '.'
    requires s == x + t && t[1..] == y + u && u[1..] == z
    ensures s == x + "." + y + "." + z
  {
    assert t == "." + t[1..] && u == "." + u[1..];
  }

  lemma DeckMatchJoins(digit: Digits, s: string)
    requires DeckMatch(digit, s).Some?
    ensures var g := DeckMatch(digit, s).value;
            && Numeral(digit, g.major) && Numeral(digit, g.minor) && Numeral(digit, g.patch)
            && s == g.major + "." + g.minor + "." + g.patch
  {
    var a := TakeNumeral(digit, s).value;
    var b := TakeNumeral(digit, a.1[1..]).value;
    var c := TakeNumeral(digit, b.1[1..]).value;
    TakenIsNumeral(digit, s);
    TakenIsNumeral(digit, a.1[1..]);
    TakenIsNumeral(digit, b.1[1..]);
    assert c.0 + c.1 == c.0;
    Joined(s, a.0, a.1, b.0, b.1, c.0);
  }

  /** The matching, given how each numeral is taken. */
  lemma DeckMatchSteps(digit: Digits, s: string, x: string, t: string, y: string, u: string, z: string)
    requires t != [] && t[0] == '.' && u != [] && u[0] == '.'
    requires TakeNumeral(digit, s) == Some((x, t))
    requires TakeNumeral(digit, t[1..]) == Some((y, u))
    requires TakeNumeral(digit, u[1..]) == Some((z, ""))
    ensures DeckMatch(digit, s) == Some(Groups(x, y, z))
  {
  }

  lemma Layout(x: string, y: string, z: string)
    ensures x + "." + y + "." + z == x + ("." + (y + ("." + z))) && z + "" == z
  {
  }

  lemma AfterDot(s: string)
    ensures ("." + s)[1..] == s && ("." + s)[0] == '.'
  {
  }

  lemma DeckMatchesJoined(digit: Digits, g: Groups)
    requires digit('.').None?
    requires Numeral(digit, g.major) && Numeral(digit, g.minor) && Numeral(digit, g.patch)
    ensures DeckMatch(digit, g.major + "." + g.minor + "." + g.patch) == Some(g)
  {
    var x, y, z := g.major, g.minor, g.patch;
    AfterDot(z);
    AfterDot(y + ("." + z));
    TakesNumeral(digit, x, "." + (y + ("." + z)));
    TakesNumeral(digit, y, "." + z);
    TakesNumeral(digit, z, "");
    Layout(x, y, z);
    DeckMatchSteps(digit, x + ("." + (y + ("." + z))), x, "." + (y + ("." + z)), y, "." + z, z);
  }

  /** The Deck matches exactly three numerals joined by dots, each zero or a non-zero ASCII digit
      followed by decimal digits of any script. */
  lemma DeckMatchesExactly(digit: Digits, s: string, g: Groups)
    requires UnicodeDigits(digit)
    ensures DeckMatch(digit, s) == Some(g)
       <==> && Numeral(digit, g.major) && Numeral(digit, g.minor) && Numeral(digit, g.patch)
            && s == g.major + "." + g.minor + "." + g.patch
  {
    if DeckMatch(digit, s) == Some(g) {
      DeckMatchJoins(digit, s);
    } else if Numeral(digit, g.major) && Numeral(digit, g.minor) && Numeral(digit, g.patch) {
      DeckMatchesJoined(digit, g);
    }
  }

  // ---------------------------------------------------------------- both

  /** A group of ASCII digits that fits in 64 bits. */
  predicate PlainPart(s: string) {
    AllDigits(s) && Value(s) < 0x1_0000_0000_0000_0000
  }

  predicate Plain(g: Groups) {
    PlainPart(g.major) && PlainPart(g.minor) && PlainPart(g.patch)
  }

  /** Host and Deck reach the same verdict on two versions exactly when the Deck's expression fails on
      one of them, or both are in ASCII digits with every component below 2^64. Otherwise the host
      calls a version unknown that the Deck reads as a number, or fails to read. */
  lemma ComparatorsAgreeIff(digit: Digits, plugin: string, host: string)
    requires UnicodeDigits(digit)
    ensures DeckCompare(digit, plugin, host) == Some(HostCompare(plugin, host))
       <==> var p, h := DeckMatch(digit, plugin), DeckMatch(digit, host);
            p.None? || h.None? || (Plain(p.value) && Plain(h.value))
  {
    HostVersusDeck(digit, plugin);
    HostVersusDeck(digit, host);
  }

  lemma PlainIsParsed(digit: Digits, s: string)
    requires UnicodeDigits(digit) && DeckMatch(digit, s).Some? && Plain(DeckMatch(digit, s).value)
    ensures HostParse(s).Some? && HostParse(s) == DeckNumbers(digit, DeckMatch(digit, s).value)
  {
    var g := DeckMatch(digit, s).value;
    DeckMatchJoins(digit, s);
    PlainNumeral(digit, g.major);
    PlainNumeral(digit, g.minor);
    PlainNumeral(digit, g.patch);
    HostParsesExactly(s, Version(Value(g.major), Value(g.minor), Value(g.patch)));
  }

  lemma ParsedIsPlain(digit: Digits, s: string)
    requires UnicodeDigits(digit) && HostParse(s).Some?
    ensures DeckMatch(digit, s).Some? && Plain(DeckMatch(digit, s).value)
  {
    var v := HostParse(s).value;
    HostParsesExactly(s, v);
    PrintedIsPlain(digit, v.major);
    PrintedIsPlain(digit, v.minor);
    PrintedIsPlain(digit, v.patch);
    DeckMatchesJoined(digit, Groups(Print(v.major), Print(v.minor), Print(v.patch)));
  }

  lemma HostVersusDeck(digit: Digits, s: string)
    requires UnicodeDigits(digit)
    ensures var g := DeckMatch(digit, s);
            if g.Some? && Plain(g.value) then HostParse(s).Some? && HostParse(s) == DeckNumbers(digit, g.value)
            else HostParse(s).None?
  {
    if DeckMatch(digit, s).Some? && Plain(DeckMatch(digit, s).value) {
      PlainIsParsed(digit, s);
    } else if HostParse(s).Some? {
      ParsedIsPlain(digit, s);
    }
  }

  /** A numeral in ASCII digits below 2^64 is the printed form of what both sides read. */
  lemma PlainNumeral(digit: Digits, s: string)
    requires UnicodeDigits(digit) && Numeral(digit, s) && PlainPart(s)
    ensures s == Print(Value(s)) && DeckInt(digit, s) == Some(Value(s))
  {
    CanonicalIsPrinted(s);
    TwentyDigits();
    PrintedLength(Value(s), 20);
    ReadingIsValue(digit, s);
  }

  lemma PrintedIsPlain(digit: Digits, n: nat)
    requires UnicodeDigits(digit) && n < U64_LIMIT
    ensures Numeral(digit, Print(n)) && PlainPart(Print(n))
  {
    PrintIsCanonical(n);
  }

  lemma {:induction false} ReadingIsValue(digit: Digits, s: string)
    requires UnicodeDigits(digit) && AllDigits(s)
    ensures Digital(digit, s) && Reading(digit, s) == Value(s)
  {
    if s != [] {
      ReadingIsValue(digit, s[..|s| - 1]);
    }
  }

  function Pow10(k: nat): nat {
    if k == 0 then 1 else 10 * Pow10(k - 1)
  }

  lemma TwentyDigits()
    ensures U64_LIMIT <= Pow10(20)
  {
    assert Pow10(5) == 10 * Pow10(4) && Pow10(4) == 10 * Pow10(3) && Pow10(3) == 10 * Pow10(2);
    assert Pow10(10) == 100_000 * Pow10(5) by { Pow10Adds(5, 5); }
    Pow10Adds(10, 10);
  }

  lemma {:induction false} Pow10Adds(a: nat, b: nat)
    ensures Pow10(a + b) == Pow10(a) * Pow10(b)
  {
    if a > 0 {
      Pow10Adds(a - 1, b);
    }
  }

  lemma {:induction false} PrintedLength(n: nat, k: nat)
    requires 1 <= k && n < Pow10(k)
    ensures |Print(n)| <= k
  {
    if n >= 10 {
      PrintedLength(n / 10, k - 1);
    }
  }

  /** A version that the Deck reads as three numbers is compatible with itself there, and unknown to
      the host if a group is not plain. */
  lemma ReadByDeckOnly(digit: Digits, g: Groups)
    requires UnicodeDigits(digit) && !Plain(g) && DeckNumbers(digit, g).Some?
    requires Numeral(digit, g.major) && Numeral(digit, g.minor) && Numeral(digit, g.patch)
    ensures var s := g.major + "." + g.minor + "." + g.patch;
            DeckCompare(digit, s, s) == Some(Compatible) && HostCompare(s, s) == Unknown
  {
    DeckMatchesJoined(digit, g);
    HostVersusDeck(digit, g.major + "." + g.minor + "." + g.patch);
  }

  /** One such input: the second component has an Arabic-Indic three. */
  lemma UnicodeDigitDisagrees(digit: Digits)
    requires UnicodeDigits(digit) && digit('\U{0663}') == Some(3)
    ensures var s := "1" + "." + "2\U{0663}" + "." + "0";
            DeckCompare(digit, s, s) == Some(Compatible) && HostCompare(s, s) == Unknown
  {
    var minor := "2\U{0663}";
    assert minor[1..] == ['\U{0663}'] && !IsDigit(minor[1]);
    ReadByDeckOnly(digit, Groups("1", minor, "0"));
  }

  // ---------------------------------------------------------------- who must update

  /** Text that prints a version of 64-bit numbers. */
  ghost predicate Printed(s: string) {
    exists v :: Fits(v) && s == Show(v)
  }

  /** The host's verdict on two printed versions: the side with the smaller minor number must update,
      unless the major numbers differ. */
  lemma HostVerdict(p: Version, h: Version)
    requires Fits(p) && Fits(h)
    ensures var r := HostCompare(Show(p), Show(h));
            && (r == Incompatible <==> p.major != h.major)
            && (r == UpdateHost <==> p.major == h.major && h.minor < p.minor)
            && (r == UpdatePlugin <==> p.major == h.major && p.minor < h.minor)
            && (r == Compatible <==> p.major == h.major && p.minor == h.minor)
  {
    HostParsesExactly(Show(p), p);
    HostParsesExactly(Show(h), h);
  }

  /** And it is unknown exactly if one of the texts is not a printed version. */
  lemma HostUnknownIff(plugin: string, host: string)
    ensures HostCompare(plugin, host) == Unknown <==> !Printed(plugin) || !Printed(host)
  {
    PrintedIsParsed(plugin);
    PrintedIsParsed(host);
  }

  lemma PrintedIsParsed(s: string)
    ensures Printed(s) <==> HostParse(s).Some?
  {
    if HostParse(s).Some? {
      HostParseFits(s);
    } else if Printed(s) {
      var v :| Fits(v) && s == Show(v);
      HostParsesExactly(s, v);
    }
  }

  /** Three numerals that `int` reads. */
  predicate Readable(digit: Digits, g: Groups) {
    && Numeral(digit, g.major) && Numeral(digit, g.minor) && Numeral(digit, g.patch)
    && |g.major| <= 4300 && |g.minor| <= 4300 && |g.patch| <= 4300
  }

  lemma {:induction false} NumeralIsDigital(digit: Digits, s: string)
    requires UnicodeDigits(digit) && Numeral(digit, s)
    ensures s != [] && Digital(digit, s)
  {
    assert s == [s[0]] + s[1..];
    assert IsDigit(s[0]);
  }

  /** The Deck's verdict on two texts that it reads: the side with the smaller minor number must update,
      unless the major numbers differ. */
  lemma DeckVerdict(digit: Digits, plugin: string, host: string, p: Groups, h: Groups)
    requires UnicodeDigits(digit) && Readable(digit, p) && Readable(digit, h)
    requires plugin == p.major + "." + p.minor + "." + p.patch && host == h.major + "." + h.minor + "." + h.patch
    ensures Digital(digit, p.major) && Digital(digit, p.minor) && Digital(digit, h.major) && Digital(digit, h.minor)
    ensures var same := Reading(digit, p.major) == Reading(digit, h.major);
            var x, y := Reading(digit, p.minor), Reading(digit, h.minor);
            DeckCompare(digit, plugin, host)
            == Some(if !same then Incompatible else if y < x then UpdateHost else if x < y then UpdatePlugin
                    else Compatible)
  {
    DeckMatchesJoined(digit, p);
    DeckMatchesJoined(digit, h);
    DeckReads(digit, p);
    DeckReads(digit, h);
  }

  lemma DeckReads(digit: Digits, g: Groups)
    requires UnicodeDigits(digit) && Readable(digit, g)
    ensures Digital(digit, g.major) && Digital(digit, g.minor) && Digital(digit, g.patch)
    ensures DeckNumbers(digit, g)
         == Some(Version(Reading(digit, g.major), Reading(digit, g.minor), Reading(digit, g.patch)))
  {
    NumeralIsDigital(digit, g.major);
    NumeralIsDigital(digit, g.minor);
    NumeralIsDigital(digit, g.patch);
  }

  /** The Deck calls a pair unknown exactly if its expression fails on one of them, and raises exactly if
      both match and a numeral is too long for `int`. */
  lemma DeckUnknownOrRaises(digit: Digits, plugin: string, host: string)
    requires UnicodeDigits(digit)
    ensures var p, h := DeckMatch(digit, plugin), DeckMatch(digit, host);
            && (DeckCompare(digit, plugin, host) == Some(Unknown) <==> p.None? || h.None?)
            && (DeckCompare(digit, plugin, host).None?
                <==> p.Some? && h.Some? && (!Readable(digit, p.value) || !Readable(digit, h.value)))
  {
    DeckReadsIff(digit, plugin);
    DeckReadsIff(digit, host);
  }

  lemma DeckReadsIff(digit: Digits, s: string)
    requires UnicodeDigits(digit)
    ensures DeckMatch(digit, s).Some? ==>
              (DeckNumbers(digit, DeckMatch(digit, s).value).Some? <==> Readable(digit, DeckMatch(digit, s).value))
  {
    if DeckMatch(digit, s).Some? {
      DeckMatchJoins(digit, s);
      var g := DeckMatch(digit, s).value;
      NumeralIsDigital(digit, g.major);
      NumeralIsDigital(digit, g.minor);
      NumeralIsDigital(digit, g.patch);
    }
  }

  function Swapped(r: Relation): Relation {
    match r
    case UpdateHost => UpdatePlugin
    case UpdatePlugin => UpdateHost
    case _ => r
  }

  /** Swapping the two versions swaps who must update. */
  lemma CompareIsSymmetric(plugin: string, host: string)
    ensures HostCompare(host, plugin) == Swapped(HostCompare(plugin, host))
  {
  }

  /** Versions of 64-bit numbers that differ at most in the patch number. */
  predicate PatchesApart(p: Version, h: Version) {
    Fits(p) && Fits(h) && p.major == h.major && p.minor == h.minor
  }

  /** Versions are silent exactly when both are well formed and differ at most in the patch number. */
  lemma SilentExactly(plugin: string, host: string)
    ensures HostCompare(plugin, host) == Compatible
       <==> exists p, h :: PatchesApart(p, h) && plugin == Show(p) && host == Show(h)
  {
    if HostCompare(plugin, host) == Compatible {
      HostParseFits(plugin);
      HostParseFits(host);
      assert PatchesApart(HostParse(plugin).value, HostParse(host).value);
    } else if exists p, h :: PatchesApart(p, h) && plugin == Show(p) && host == Show(h) {
      var p, h :| PatchesApart(p, h) && plugin == Show(p) && host == Show(h);
      HostParsesExactly(plugin, p);
      HostParsesExactly(host, h);
    }
  }
}
