/** Validation and normal forms of device settings. Each validator returns a normal form that it
    maps to itself, so a stored device reloads unchanged. */
module Validation {
  import opened Common
  import opened Strings

  const DEFAULT_PORT: nat := 47991

  // ---------------------------------------------------------------- whitespace

  /** Python's `str.isspace`, also what `str.strip` removes and `\s` matches. */
  predicate IsSpace(c: char) {
    var n := c as int;
    || 0x09 <= n <= 0x0D || 0x1C <= n <= 0x20 || n == 0x85 || n == 0xA0 || n == 0x1680
    || 0x2000 <= n <= 0x200A || n == 0x2028 || n == 0x2029 || n == 0x202F || n == 0x205F || n == 0x3000
  }

  function Strip(s: string): string {
    if s == [] then []
    else if IsSpace(s[0]) then Strip(s[1..])
    else if IsSpace(s[|s| - 1]) then Strip(s[..|s| - 1])
    else s
  }

  predicate Trimmed(s: string) {
    s == [] || (!IsSpace(s[0]) && !IsSpace(s[|s| - 1]))
  }

  lemma {:induction false} StripTrims(s: string)
    ensures Trimmed(Strip(s)) && |Strip(s)| <= |s|
    ensures Trimmed(s) ==> Strip(s) == s
    decreases |s|
  {
    if s != [] {
      if IsSpace(s[0]) {
        StripTrims(s[1..]);
      } else if IsSpace(s[|s| - 1]) {
        StripTrims(s[..|s| - 1]);
      }
    }
  }

  // ---------------------------------------------------------------- MAC addresses

  predicate IsHex(c: char) {
    IsDigit(c) || 'a' <= c <= 'f' || 'A' <= c <= 'F'
  }

  predicate AllHex(s: string) {
    forall i :: 0 <= i < |s| ==> IsHex(s[i])
  }

  predicate IsSeparator(c: char) {
    c == '-' || c == ':' || c == '.' || IsSpace(c)
  }

  function Compact(s: string): string {
    if s == [] then [] else (if IsSeparator(s[0]) then [] else [s[0]]) + Compact(s[1..])
  }

  /** Exactly hyphens, colons, dots and spaces are dropped, wherever they are. */
  lemma {:induction false} CompactDrops(a: string, b: string)
    ensures Compact(a + b) == Compact(a) + Compact(b)
    ensures |a| == 1 ==> Compact(a) == if a[0] in "-:." || IsSpace(a[0]) then [] else a
  {
    if a == [] {
      assert a + b == b;
    } else {
      assert (a + b)[1..] == a[1..] + b;
      CompactDrops(a[1..], b);
      if |a| == 1 {
        assert a[1..] == [] && a == [a[0]];
        assert "-:."[0] == '-' && "-:."[1] == ':' && "-:."[2] == '.';
      }
    }
  }

  lemma HexExactly(c: char)
    ensures IsHex(c) <==> c in "0123456789abcdefABCDEF"
  {
    var hex := "0123456789abcdefABCDEF";
    if IsDigit(c) {
      assert hex[c as int - '0' as int] == c;
    } else if 'a' <= c <= 'f' {
      assert hex[c as int - 'a' as int + 10] == c;
    } else if 'A' <= c <= 'F' {
      assert hex[c as int - 'A' as int + 16] == c;
    }
  }

  /** Pairs of upper-case digits joined by colons. */
  function Pairs(s: string): string {
    if |s| <= 2 then Upper(s) else Upper(s[..2]) + ":" + Pairs(s[2..])
  }

  function NormalizeMac(s: string): Option<string> {
    var c := Compact(s);
    if |c| == 12 && AllHex(c) then Some(Pairs(c)) else None
  }

  lemma {:induction false} CompactPlain(s: string, tail: string)
    requires AllHex(s)
    ensures Compact(s + tail) == s + Compact(tail)
  {
    if s == [] {
      assert s + tail == tail;
    } else {
      CompactPlain(s[1..], tail);
      assert (s + tail)[1..] == s[1..] + tail;
      assert s == [s[0]] + s[1..];
    }
  }

  lemma UpperIsHex(s: string)
    requires AllHex(s)
    ensures AllHex(Upper(s)) && Upper(Upper(s)) == Upper(s)
  {
  }

  lemma UpperSplits(s: string)
    requires |s| > 2
    ensures Upper(s)[..2] == Upper(s[..2]) && Upper(s)[2..] == Upper(s[2..])
    ensures Upper(s) == Upper(s[..2]) + Upper(s[2..])
  {
  }

  lemma {:induction false} PairsOfUpper(s: string)
    requires AllHex(s)
    ensures Pairs(Upper(s)) == Pairs(s)
    decreases |s|
  {
    if |s| <= 2 {
      UpperIsHex(s);
    } else {
      UpperSplits(s);
      UpperIsHex(s[..2]);
      PairsOfUpper(s[2..]);
    }
  }

  lemma {:induction false} CompactOfPairs(s: string)
    requires AllHex(s)
    ensures Compact(Pairs(s)) == Upper(s)
    decreases |s|
  {
    if |s| <= 2 {
      UpperIsHex(s);
      CompactPlain(Upper(s), []);
      assert Upper(s) + [] == Upper(s);
    } else {
      CompactOfPairs(s[2..]);
      UpperSplits(s);
      UpperIsHex(s[..2]);
      CompactJoined(Upper(s[..2]), Pairs(s[2..]));
    }
  }

  lemma CompactJoined(head: string, rest: string)
    requires AllHex(head)
    ensures Compact(head + ":" + rest) == head + Compact(rest)
  {
    CompactPlain(head, ":" + rest);
    assert head + ":" + rest == head + (":" + rest);
    assert (":" + rest)[1..] == rest;
  }

  lemma NormalizeMacIdempotent(s: string)
    requires NormalizeMac(s).Some?
    ensures NormalizeMac(NormalizeMac(s).value) == NormalizeMac(s)
  {
    CompactOfPairs(Compact(s));
    PairsOfUpper(Compact(s));
    UpperIsHex(Compact(s));
  }

  lemma {:induction false} PairsLength(s: string, n: nat)
    requires |s| == 2 * n && n > 0
    ensures |Pairs(s)| == 3 * n - 1
  {
    if n > 1 {
      PairsLength(s[2..], n - 1);
    }
  }

  /** The characters of pair number `k`, and the colon after it. */
  lemma {:induction false} PairsAt(s: string, n: nat, k: nat)
    requires |s| == 2 * n && k < n && |Pairs(s)| == 3 * n - 1
    ensures Pairs(s)[3 * k] == UpperChar(s[2 * k])
    ensures Pairs(s)[3 * k + 1] == UpperChar(s[2 * k + 1])
    ensures k + 1 < n ==> Pairs(s)[3 * k + 2] == ':'
  {
    if k > 0 {
      PairsLength(s[2..], n - 1);
      PairsAt(s[2..], n - 1, k - 1);
      PairsStep(s);
    }
  }

  lemma PairsStep(s: string)
    requires |s| > 2
    ensures |Pairs(s)| == 3 + |Pairs(s[2..])| && Pairs(s)[3..] == Pairs(s[2..])
  {
  }

  /** A normalized MAC address is six colon-separated pairs: the twelve digits of the input, in order
      and in upper case. */
  lemma MacNormalForm(s: string, i: nat)
    requires NormalizeMac(s).Some? && i < 17
    ensures |NormalizeMac(s).value| == 17 && |Compact(s)| == 12
    ensures NormalizeMac(s).value[i] == if i % 3 == 2 then ':' else UpperChar(Compact(s)[i - i / 3])
  {
    PairsLength(Compact(s), 6);
    PairsAt(Compact(s), 6, i / 3);
  }

  // ---------------------------------------------------------------- ports

  datatype PortValue = Missing | Flag(on: bool) | Integer(n: int) | Text(text: string)

  /** U+001C to U+001F: spaces to `str.strip`, but not to `int`. */
  predicate IsControl(c: char) {
    0x1C <= c as int <= 0x1F
  }

  predicate IsIntSpace(c: char) {
    IsSpace(c) && !IsControl(c)
  }

  /** The text `int` reads after skipping spaces. */
  function IntStrip(s: string): string {
    if s == [] then []
    else if IsIntSpace(s[0]) then IntStrip(s[1..])
    else if IsIntSpace(s[|s| - 1]) then IntStrip(s[..|s| - 1])
    else s
  }

  /** A number, or text that is exactly its decimal numeral between spaces. Whatever else `int` reads
      differs from the numeral it is then compared with. */
  function ValidatePort(value: PortValue, default: bool): Option<nat> {
    match value
    case Missing => if default then Some(DEFAULT_PORT) else None
    case Flag(_) => None
    case Integer(n) => if 1 <= n <= 65535 then Some(n) else None
    case Text(s) =>
      if s == [] && default then Some(DEFAULT_PORT)
      else
        var t := IntStrip(s);
        if Strip(s) == t && CanonicalNumeral(t) && 1 <= Value(t) <= 65535 then Some(Value(t)) else None
  }

  lemma {:induction false} IntStripKeepsFirst(s: string)
    requires s != [] && !IsIntSpace(s[0])
    ensures IntStrip(s) != [] && IntStrip(s)[0] == s[0]
  {
    if IsIntSpace(s[|s| - 1]) {
      IntStripKeepsFirst(s[..|s| - 1]);
    }
  }

  predicate NoControls(s: string) {
    forall i :: 0 <= i < |s| ==> !IsControl(s[i])
  }

  /** Around text without spaces, the two ways of skipping spaces agree unless a control is skipped. */
  lemma {:induction false} StripsAgree(s: string)
    requires Strip(s) != [] && !HasSpace(Strip(s))
    ensures IntStrip(s) == Strip(s) <==> NoControls(s)
    decreases |s|
  {
    if IsSpace(s[0]) {
      if IsControl(s[0]) {
        IntStripKeepsFirst(s);
      } else {
        StripsAgree(s[1..]);
        assert s == [s[0]] + s[1..];
      }
    } else if IsSpace(s[|s| - 1]) {
      if !IsControl(s[|s| - 1]) {
        StripsAgree(s[..|s| - 1]);
        assert s == s[..|s| - 1] + [s[|s| - 1]];
      }
    }
  }

  /** A missing or empty value is the default port where that is allowed, flags are refused, and a number is
      accepted exactly in its range. */
  lemma PortExactly(value: PortValue, default: bool, port: nat)
    requires !value.Text? || value.text == ""
    ensures ValidatePort(value, default) == Some(port)
       <==> if value.Integer? then value.n == port && 1 <= port <= 65535
            else !value.Flag? && default && port == 47991
  {
  }

  /** A port is accepted from text exactly when the text, stripped, prints it, and no control was
      stripped. */
  lemma PortText(s: string, port: nat)
    requires s != []
    ensures ValidatePort(Text(s), true) == Some(port)
       <==> 1 <= port <= 65535 && Strip(s) == Print(port) && NoControls(s)
  {
    PrintIsCanonical(port);
    if CanonicalNumeral(Strip(s)) {
      CanonicalIsPrinted(Strip(s));
      StripsAgree(s);
    }
  }

  // ---------------------------------------------------------------- dotted text

  /** `s.split(".")`. */
  function SplitDots(s: string): (r: seq<string>)
    ensures r != []
    decreases |s|
  {
    var (part, rest) := Cut(s);
    CutLength(s);
    if rest.None? then [part] else [part] + SplitDots(rest.value)
  }

  function JoinDots(parts: seq<string>): string
    requires parts != []
  {
    if |parts| == 1 then parts[0] else parts[0] + "." + JoinDots(parts[1..])
  }

  lemma {:induction false} JoinOfSplit(s: string)
    ensures JoinDots(SplitDots(s)) == s
    decreases |s|
  {
    CutLength(s);
    var (part, rest) := Cut(s);
    if rest.Some? {
      JoinOfSplit(rest.value);
      assert SplitDots(s)[1..] == SplitDots(rest.value);
    }
  }

  /** Text that ends with a dot has an empty last part. */
  lemma {:induction false} TrailingDot(s: string)
    requires s != [] && s[|s| - 1] == '.'
    ensures SplitDots(s)[|SplitDots(s)| - 1] == []
    decreases |s|
  {
    CutLength(s);
    var (part, rest) := Cut(s);
    assert s[|s| - 1] in s;
    if rest.Some? && rest.value != [] {
      assert rest.value[|rest.value| - 1] == '.';
      TrailingDot(rest.value);
    }
  }

  // ---------------------------------------------------------------- IPv4

  predicate IsOctet(s: string) {
    CanonicalNumeral(s) && |s| <= 3 && Value(s) <= 255
  }

  function ParseIPv4(s: string): Option<seq<nat>> {
    var parts := SplitDots(s);
    if |parts| == 4 && forall i :: 0 <= i < 4 ==> IsOctet(parts[i])
    then Some([Value(parts[0]), Value(parts[1]), Value(parts[2]), Value(parts[3])])
    else None
  }

  function ShowIPv4(octets: seq<nat>): string
    requires |octets| == 4
  {
    JoinDots([Print(octets[0]), Print(octets[1]), Print(octets[2]), Print(octets[3])])
  }

  /** An accepted address is already in the form it is printed in. */
  lemma IPv4IsCanonical(s: string)
    requires ParseIPv4(s).Some?
    ensures ShowIPv4(ParseIPv4(s).value) == s
  {
    var parts := SplitDots(s);
    CanonicalIsPrinted(parts[0]);
    CanonicalIsPrinted(parts[1]);
    CanonicalIsPrinted(parts[2]);
    CanonicalIsPrinted(parts[3]);
    assert parts == [parts[0], parts[1], parts[2], parts[3]];
    JoinOfSplit(s);
  }

  lemma {:induction false} SplitOfJoin(parts: seq<string>)
    requires parts != [] && forall i :: 0 <= i < |parts| ==> '.' !in parts[i]
    ensures SplitDots(JoinDots(parts)) == parts
  {
    if |parts| == 1 {
      CutUndotted(parts[0], []);
      assert parts == [parts[0]];
    } else {
      CutUndotted(parts[0], JoinDots(parts[1..]));
      SplitOfJoin(parts[1..]);
      assert parts == [parts[0]] + parts[1..];
    }
  }

  lemma OctetOf(n: nat)
    requires n <= 255
    ensures IsOctet(Print(n)) && Value(Print(n)) == n && '.' !in Print(n)
  {
    PrintIsCanonical(n);
    assert AllDigits(Print(n));
    if n >= 100 {
      assert |Print(n / 10)| == 1 + |Print(n / 10 / 10)|;
    }
  }

  /** Exactly the printed forms of four octets are accepted, each as those octets. */
  lemma IPv4Exactly(s: string, octets: seq<nat>)
    ensures ParseIPv4(s) == Some(octets)
       <==> |octets| == 4 && (forall i :: 0 <= i < 4 ==> octets[i] <= 255) && s == ShowIPv4(octets)
  {
    if ParseIPv4(s) == Some(octets) {
      IPv4IsCanonical(s);
    }
    if |octets| == 4 && (forall i :: 0 <= i < 4 ==> octets[i] <= 255) && s == ShowIPv4(octets) {
      IPv4Printed(octets);
    }
  }

  lemma IPv4Printed(octets: seq<nat>)
    requires |octets| == 4 && forall i :: 0 <= i < 4 ==> octets[i] <= 255
    ensures ParseIPv4(ShowIPv4(octets)) == Some(octets)
  {
    OctetOf(octets[0]);
    OctetOf(octets[1]);
    OctetOf(octets[2]);
    OctetOf(octets[3]);
    SplitOfJoin([Print(octets[0]), Print(octets[1]), Print(octets[2]), Print(octets[3])]);
    assert octets == [octets[0], octets[1], octets[2], octets[3]];
  }

  // ---------------------------------------------------------------- host addresses

  predicate IsAlnum(c: char) {
    IsDigit(c) || 'a' <= c <= 'z' || 'A' <= c <= 'Z'
  }

  predicate IsLabel(s: string) {
    && 1 <= |s| <= 63 && IsAlnum(s[0]) && IsAlnum(s[|s| - 1])
    && forall i :: 0 <= i < |s| ==> IsAlnum(s[i]) || s[i] == '-'
  }

  /** A label has 1 to 63 ASCII letters, digits and hyphens, with no hyphen at either end. */
  lemma LabelExactly(s: string)
    ensures IsLabel(s)
       <==> && 1 <= |s| <= 63 && s[0] != '-' && s[|s| - 1] != '-'
            && forall i :: 0 <= i < |s| ==>
                 s[i] == '-' || '0' <= s[i] <= '9' || 'a' <= s[i] <= 'z' || 'A' <= s[i] <= 'Z'
  {
  }

  function RemoveFinalDot(s: string): string {
    if s != [] && s[|s| - 1] == '.' then s[..|s| - 1] else s
  }

  predicate IsHostname(s: string) {
    forall i :: 0 <= i < |SplitDots(s)| ==> IsLabel(SplitDots(s)[i])
  }

  predicate HasSpace(s: string) {
    exists i :: 0 <= i < |s| && IsSpace(s[i])
  }

  /** A hostname or an IPv4 address. IPv6 addresses contain colons, so they fail as hostnames with
      the error they would get as addresses. */
  function ValidateAddress(value: string): Option<string> {
    var a := Strip(value);
    if a == [] || |a| > 253 || HasSpace(a) then None
    else if ParseIPv4(a).Some? then Some(ShowIPv4(ParseIPv4(a).value))
    else if IsHostname(RemoveFinalDot(a)) then Some(RemoveFinalDot(a))
    else None
  }

  lemma HostnameEnds(s: string)
    requires IsHostname(s)
    ensures s != [] && s[|s| - 1] != '.'
  {
    assert IsLabel(SplitDots(s)[|SplitDots(s)| - 1]);
    if s != [] && s[|s| - 1] == '.' {
      TrailingDot(s);
    }
  }

  lemma ValidateAddressIdempotent(value: string)
    requires ValidateAddress(value).Some?
    ensures ValidateAddress(ValidateAddress(value).value) == ValidateAddress(value)
  {
    var a, t := Strip(value), ValidateAddress(value).value;
    if ParseIPv4(a).Some? {
      IPv4IsCanonical(a);
    } else {
      HostnameEnds(t);
    }
    assert !HasSpace(t) by {
      assert forall i :: 0 <= i < |t| ==> t[i] == a[i];
    }
    StripTrims(t);
    if ParseIPv4(t).Some? {
      IPv4IsCanonical(t);
    }
  }

  /** Exactly which addresses are accepted, and as what: the stripped text, less one final dot if it
      is not an IPv4 address. */
  lemma AddressNormalForm(value: string, t: string)
    ensures ValidateAddress(value) == Some(t)
       <==> var a := Strip(value);
            a != [] && |a| <= 253 && !HasSpace(a)
            && ((t == a && ParseIPv4(a).Some?)
                || (ParseIPv4(a).None? && IsHostname(t) && (t == a || t + "." == a)))
  {
    var a := Strip(value);
    if ParseIPv4(a).Some? {
      IPv4IsCanonical(a);
    } else if IsHostname(t) {
      HostnameEnds(t);
      if t + "." == a {
        assert a[..|a| - 1] == t;
      }
    }
    if a != [] && a[|a| - 1] == '.' {
      assert a == a[..|a| - 1] + ".";
      if IsHostname(a) {
        HostnameEnds(a);
      }
    }
  }

  /** An empty value means no address. */
  function ValidateBroadcast(value: string): Option<Option<string>> {
    var t := Strip(value);
    if t == [] then Some(None)
    else if ParseIPv4(t).Some? then Some(Some(ShowIPv4(ParseIPv4(t).value)))
    else None
  }

  /** How a stored broadcast address is presented to the validator again. */
  function BroadcastText(b: Option<string>): string {
    if b.None? then "" else b.value
  }

  lemma ValidateBroadcastIdempotent(value: string)
    requires ValidateBroadcast(value).Some?
    ensures ValidateBroadcast(BroadcastText(ValidateBroadcast(value).value)) == ValidateBroadcast(value)
  {
    var t := Strip(value);
    StripTrims(value);
    StripTrims(t);
    if t != [] {
      IPv4IsCanonical(t);
    }
  }
}
