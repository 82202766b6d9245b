/** The byte strings that both sides authenticate: the request and response messages
    covered by HMAC, and the associated data of the encrypted pairing credential.
    Each is written once in Rust (the host) and once in Python (the Deck). */
module Canonical {
  import opened Common
  import opened Strings

  const NONCE_LENGTH: nat := 16
  const MAX_FIELD: nat := 65535

  datatype AuthError = Malformed | Stale | Replay | Invalid | RateLimited | Persistence

  const DOMAIN: Bytes := Ascii("deckymyrig-auth-v1\0")
  const RESPONSE_DOMAIN: Bytes := Ascii("deckymyrig-response-v1\0")
  const CREDENTIAL_AAD_DOMAIN: Bytes := Ascii("deckymyrig-pairing-credential-aad-v1\0")

  // ---------------------------------------------------------------- layout

  /** Big-endian encoding of `n` in `width` bytes, dropping what does not fit. */
  function BigEndian(n: nat, width: nat): (r: Bytes)
    ensures |r| == width
  {
    if width == 0 then [] else BigEndian(n / 256, width - 1) + [n % 256]
  }

  function Pow256(k: nat): nat {
    if k == 0 then 1 else 256 * Pow256(k - 1)
  }

  lemma {:induction false} BigEndianInjective(a: nat, b: nat, width: nat)
    requires a < Pow256(width) && b < Pow256(width)
    requires BigEndian(a, width) == BigEndian(b, width)
    ensures a == b
  {
    if width > 0 {
      var x, y := BigEndian(a, width), BigEndian(b, width);
      assert x[..width - 1] == BigEndian(a / 256, width - 1);
      assert y[..width - 1] == BigEndian(b / 256, width - 1);
      assert x[width - 1] == a % 256 && y[width - 1] == b % 256;
      BigEndianInjective(a / 256, b / 256, width - 1);
    }
  }

  lemma WidthBounds()
    ensures Pow256(2) == 0x1_0000
    ensures Pow256(4) == 0x1_0000_0000
    ensures Pow256(8) == 0x1_0000_0000_0000_0000
  {
    assert Pow256(3) == 256 * Pow256(2);
    assert Pow256(4) == 256 * Pow256(3);
    assert Pow256(5) == 256 * Pow256(4);
    assert Pow256(6) == 256 * Pow256(5);
    assert Pow256(7) == 256 * Pow256(6);
  }

  /** A length-prefixed field. */
  function Field(field: Bytes): Bytes {
    BigEndian(|field|, 2) + field
  }

  function Fields(fs: seq<Bytes>): Bytes {
    if fs == [] then [] else Field(fs[0]) + Fields(fs[1..])
  }

  predicate Short(fs: seq<Bytes>) {
    forall i :: 0 <= i < |fs| ==> |fs[i]| <= MAX_FIELD
  }

  lemma Split(a: Bytes, x: Bytes, b: Bytes, y: Bytes)
    requires |a| == |b| && a + x == b + y
    ensures a == b && x == y
  {
    assert a == (a + x)[..|a|] && b == (b + y)[..|b|];
    assert x == (a + x)[|a|..] && y == (b + y)[|b|..];
  }

  lemma FieldSplit(a: Bytes, x: Bytes, b: Bytes, y: Bytes)
    requires |a| <= MAX_FIELD && |b| <= MAX_FIELD
    requires Field(a) + x == Field(b) + y
    ensures a == b && x == y
  {
    assert Field(a) + x == BigEndian(|a|, 2) + (a + x);
    assert Field(b) + y == BigEndian(|b|, 2) + (b + y);
    Split(BigEndian(|a|, 2), a + x, BigEndian(|b|, 2), b + y);
    WidthBounds();
    BigEndianInjective(|a|, |b|, 2);
    Split(a, x, b, y);
  }

  /** Length prefixes make a known number of fields uniquely readable, whatever follows. */
  lemma {:induction false} FieldsSplit(fs: seq<Bytes>, x: Bytes, gs: seq<Bytes>, y: Bytes)
    requires |fs| == |gs| && Short(fs) && Short(gs)
    requires Fields(fs) + x == Fields(gs) + y
    ensures fs == gs && x == y
  {
    if fs == [] {
      assert Fields(fs) + x == x && Fields(gs) + y == y;
    } else {
      assert Fields(fs) + x == Field(fs[0]) + (Fields(fs[1..]) + x);
      assert Fields(gs) + y == Field(gs[0]) + (Fields(gs[1..]) + y);
      FieldSplit(fs[0], Fields(fs[1..]) + x, gs[0], Fields(gs[1..]) + y);
      FieldsSplit(fs[1..], x, gs[1..], y);
      assert fs == [fs[0]] + fs[1..] && gs == [gs[0]] + gs[1..];
    }
  }

  lemma FieldsUnfold(f: Bytes, fs: seq<Bytes>)
    ensures Fields([f] + fs) == Field(f) + Fields(fs)
  {
    assert ([f] + fs)[1..] == fs;
  }

  lemma FieldsOfTwo(a: Bytes, b: Bytes)
    ensures Fields([a, b]) == Field(a) + Field(b)
  {
    assert [a, b] == [a] + ([b] + []);
    FieldsUnfold(a, [b] + []);
    FieldsUnfold(b, []);
  }

  lemma FieldsOfThree(a: Bytes, b: Bytes, c: Bytes)
    ensures Fields([a, b, c]) == Field(a) + Field(b) + Field(c)
  {
    assert [a, b, c] == [a] + [b, c];
    FieldsUnfold(a, [b, c]);
    FieldsOfTwo(b, c);
    assert Field(a) + (Field(b) + Field(c)) == Field(a) + Field(b) + Field(c);
  }

  lemma FieldsAppend(fs: seq<Bytes>, f: Bytes)
    ensures Fields(fs + [f]) == Fields(fs) + Field(f)
  {
    if fs == [] {
      assert fs + [f] == [f];
      assert Fields([f]) == Field(f) + Fields([f][1..]);
    } else {
      assert (fs + [f])[1..] == fs[1..] + [f];
      FieldsAppend(fs[1..], f);
    }
  }

  /** One more field of a list, as the loops append it. */
  lemma FieldsGrow(start: Bytes, fs: seq<Bytes>, i: nat)
    requires i < |fs|
    ensures start + Fields(fs[..i]) + BigEndian(|fs[i]|, 2) + fs[i] == start + Fields(fs[..i + 1])
  {
    FieldsAppend(fs[..i], fs[i]);
    assert fs[..i + 1] == fs[..i] + [fs[i]];
  }

  // ---------------------------------------------------------------- reference encodings

  predicate RequestEncodable(nonce: Bytes, verb: string, path: string) {
    |nonce| == NONCE_LENGTH && IsAscii(verb) && IsAscii(path) && |verb| <= MAX_FIELD && |path| <= MAX_FIELD
  }

  function RequestMessage(c: Crypto, timestamp: u64, nonce: Bytes, verb: string, path: string, body: Bytes): Bytes
    requires RequestEncodable(nonce, verb, path)
  {
    DOMAIN + BigEndian(timestamp, 8) + Fields([nonce, Ascii(Upper(verb)), Ascii(path)]) + c.sha256(body)
  }

  predicate ResponseEncodable(nonce: Bytes, path: string) {
    |nonce| == NONCE_LENGTH && IsAscii(path) && |path| <= MAX_FIELD
  }

  function ResponseMessage(c: Crypto, nonce: Bytes, path: string, status: u16, body: Bytes): Bytes
    requires ResponseEncodable(nonce, path)
  {
    RESPONSE_DOMAIN + Fields([nonce, Ascii(path)]) + BigEndian(status, 2) + c.sha256(body)
  }

  /** The metadata bound to an encrypted credential; texts are given as their UTF-8 bytes. */
  datatype AadContext = AadContext(
    hostMessage: Bytes, sessionId: Bytes, hostname: Bytes, hostVersion: Bytes, hostId: Bytes, protocolVersion: u32)
  {
    function Parts(): seq<Bytes> {
      [hostMessage, sessionId, hostname, hostVersion, hostId]
    }
  }

  function AadOf(parts: seq<Bytes>, protocolVersion: nat): Bytes {
    CREDENTIAL_AAD_DOMAIN + Fields(parts) + BigEndian(protocolVersion, 4)
  }

  function CredentialAad(ctx: AadContext): Bytes {
    AadOf(ctx.Parts(), ctx.protocolVersion)
  }

  // ---------------------------------------------------------------- injectivity

  /** Two requests have the same signed bytes exactly when timestamp, nonce, upper-cased
      method, path and body digest all agree. */
  lemma RequestMessageInjective(c: Crypto,
                                t1: u64, n1: Bytes, v1: string, p1: string, b1: Bytes,
                                t2: u64, n2: Bytes, v2: string, p2: string, b2: Bytes)
    requires RequestEncodable(n1, v1, p1) && RequestEncodable(n2, v2, p2)
    ensures RequestMessage(c, t1, n1, v1, p1, b1) == RequestMessage(c, t2, n2, v2, p2, b2)
       <==> t1 == t2 && n1 == n2 && Upper(v1) == Upper(v2) && p1 == p2 && c.sha256(b1) == c.sha256(b2)
  {
    var f1 := [n1, Ascii(Upper(v1)), Ascii(p1)];
    var f2 := [n2, Ascii(Upper(v2)), Ascii(p2)];
    var m1, m2 := RequestMessage(c, t1, n1, v1, p1, b1), RequestMessage(c, t2, n2, v2, p2, b2);
    if m1 == m2 {
      assert m1 == (DOMAIN + BigEndian(t1, 8)) + (Fields(f1) + c.sha256(b1));
      assert m2 == (DOMAIN + BigEndian(t2, 8)) + (Fields(f2) + c.sha256(b2));
      Split(DOMAIN + BigEndian(t1, 8), Fields(f1) + c.sha256(b1), DOMAIN + BigEndian(t2, 8), Fields(f2) + c.sha256(b2));
      Split(DOMAIN, BigEndian(t1, 8), DOMAIN, BigEndian(t2, 8));
      WidthBounds();
      BigEndianInjective(t1, t2, 8);
      FieldsSplit(f1, c.sha256(b1), f2, c.sha256(b2));
      assert f1[0] == f2[0] && f1[1] == f2[1] && f1[2] == f2[2];
      AsciiInjective(Upper(v1), Upper(v2));
      AsciiInjective(p1, p2);
    }
  }

  lemma ResponseMessageInjective(c: Crypto,
                                 n1: Bytes, p1: string, s1: u16, b1: Bytes,
                                 n2: Bytes, p2: string, s2: u16, b2: Bytes)
    requires ResponseEncodable(n1, p1) && ResponseEncodable(n2, p2)
    ensures ResponseMessage(c, n1, p1, s1, b1) == ResponseMessage(c, n2, p2, s2, b2)
       <==> n1 == n2 && p1 == p2 && s1 == s2 && c.sha256(b1) == c.sha256(b2)
  {
    var f1, f2 := [n1, Ascii(p1)], [n2, Ascii(p2)];
    var x1, x2 := BigEndian(s1, 2) + c.sha256(b1), BigEndian(s2, 2) + c.sha256(b2);
    var m1, m2 := ResponseMessage(c, n1, p1, s1, b1), ResponseMessage(c, n2, p2, s2, b2);
    if m1 == m2 {
      assert m1 == RESPONSE_DOMAIN + (Fields(f1) + x1);
      assert m2 == RESPONSE_DOMAIN + (Fields(f2) + x2);
      Split(RESPONSE_DOMAIN, Fields(f1) + x1, RESPONSE_DOMAIN, Fields(f2) + x2);
      FieldsSplit(f1, x1, f2, x2);
      assert f1[0] == f2[0] && f1[1] == f2[1];
      AsciiInjective(p1, p2);
      Split(BigEndian(s1, 2), c.sha256(b1), BigEndian(s2, 2), c.sha256(b2));
      WidthBounds();
      BigEndianInjective(s1, s2, 2);
    }
  }

  lemma CredentialAadInjective(a: AadContext, b: AadContext)
    requires Short(a.Parts()) && Short(b.Parts())
    ensures CredentialAad(a) == CredentialAad(b) <==> a == b
  {
    if CredentialAad(a) == CredentialAad(b) {
      var x, y := BigEndian(a.protocolVersion, 4), BigEndian(b.protocolVersion, 4);
      assert CredentialAad(a) == CREDENTIAL_AAD_DOMAIN + (Fields(a.Parts()) + x);
      assert CredentialAad(b) == CREDENTIAL_AAD_DOMAIN + (Fields(b.Parts()) + y);
      Split(CREDENTIAL_AAD_DOMAIN, Fields(a.Parts()) + x, CREDENTIAL_AAD_DOMAIN, Fields(b.Parts()) + y);
      FieldsSplit(a.Parts(), x, b.Parts(), y);
      WidthBounds();
      BigEndianInjective(a.protocolVersion, b.protocolVersion, 4);
      assert a.Parts()[0] == b.Parts()[0] && a.Parts()[1] == b.Parts()[1] && a.Parts()[2] == b.Parts()[2];
      assert a.Parts()[3] == b.Parts()[3] && a.Parts()[4] == b.Parts()[4];
    }
  }

  /** A request signature can never be presented as a response signature, or the reverse. */
  lemma RequestNeverResponse(c: Crypto, t: u64, n1: Bytes, v: string, p1: string, b1: Bytes,
                             n2: Bytes, p2: string, s: u16, b2: Bytes)
    requires RequestEncodable(n1, v, p1) && ResponseEncodable(n2, p2)
    ensures RequestMessage(c, t, n1, v, p1, b1) != ResponseMessage(c, n2, p2, s, b2)
  {
    assert RequestMessage(c, t, n1, v, p1, b1)[11] == DOMAIN[11] == 'a' as int;
    assert ResponseMessage(c, n2, p2, s, b2)[11] == RESPONSE_DOMAIN[11] == 'r' as int;
  }

  // ---------------------------------------------------------------- host (Rust)

  method AppendField(output: Bytes, field: Bytes) returns (r: Result<Bytes, AuthError>)
    ensures r == if |field| <= MAX_FIELD then Ok(output + Field(field)) else Err(Malformed)
  {
    if |field| > MAX_FIELD {
      return Err(Malformed);
    }
    var out := output;
    out := out + BigEndian(|field|, 2);
    out := out + field;
    assert out == output + Field(field);
    return Ok(out);
  }

  method CanonicalMessage(c: Crypto, timestamp: u64, nonce: Bytes, verb: string, path: string, body: Bytes)
    returns (r: Result<Bytes, AuthError>)
    ensures r.Ok? <==> RequestEncodable(nonce, verb, path)
    ensures r.Ok? ==> r.value == RequestMessage(c, timestamp, nonce, verb, path, body)
    ensures r.Err? ==> r.error == Malformed
  {
    if |nonce| != NONCE_LENGTH || !IsAscii(verb) || !IsAscii(path) {
      return Err(Malformed);
    }
    var upper := Upper(verb);
    var output := DOMAIN;
    output := output + BigEndian(timestamp, 8);
    r := AppendField(output, nonce);
    if r.Err? { return; }
    r := AppendField(r.value, Ascii(upper));
    if r.Err? { return; }
    r := AppendField(r.value, Ascii(path));
    if r.Err? { return; }
    FieldsOfThree(nonce, Ascii(upper), Ascii(path));
    assert r.value == output + Fields([nonce, Ascii(upper), Ascii(path)]);
    r := Ok(r.value + c.sha256(body));
  }

  method HostResponseMessage(c: Crypto, nonce: Bytes, path: string, status: u16, body: Bytes)
    returns (r: Result<Bytes, AuthError>)
    ensures r.Ok? <==> ResponseEncodable(nonce, path)
    ensures r.Ok? ==> r.value == ResponseMessage(c, nonce, path, status, body)
    ensures r.Err? ==> r.error == Malformed
  {
    if |nonce| != NONCE_LENGTH || !IsAscii(path) {
      return Err(Malformed);
    }
    r := AppendField(RESPONSE_DOMAIN, nonce);
    if r.Err? { return; }
    r := AppendField(r.value, Ascii(path));
    if r.Err? { return; }
    FieldsOfTwo(nonce, Ascii(path));
    assert r.value == RESPONSE_DOMAIN + Fields([nonce, Ascii(path)]);
    r := Ok(r.value + BigEndian(status, 2) + c.sha256(body));
  }

  /** The host's loop; `parts` is `ctx.Parts()` of the context being bound. */
  method HostCredentialAad(parts: seq<Bytes>, protocolVersion: u32) returns (r: Option<Bytes>)
    ensures r.Some? <==> Short(parts)
    ensures r.Some? ==> r.value == AadOf(parts, protocolVersion)
  {
    var aad := CREDENTIAL_AAD_DOMAIN;
    for i := 0 to |parts|
      invariant Short(parts[..i])
      invariant aad == CREDENTIAL_AAD_DOMAIN + Fields(parts[..i])
    {
      if |parts[i]| > MAX_FIELD {
        return None;
      }
      aad := aad + BigEndian(|parts[i]|, 2);
      aad := aad + parts[i];
      FieldsGrow(CREDENTIAL_AAD_DOMAIN, parts, i);
    }
    assert parts[..|parts|] == parts;
    aad := aad + BigEndian(protocolVersion, 4);
    return Some(aad);
  }

  // ---------------------------------------------------------------- Deck (Python)

  datatype PyError = ValueError | StructError

  const DECK_DOMAIN: Bytes := Ascii("deckymyrig-auth-v1\0")
  const DECK_RESPONSE_DOMAIN: Bytes := Ascii("deckymyrig-response-v1\0")
  const DECK_AAD_DOMAIN: Bytes := Ascii("deckymyrig-pairing-credential-aad-v1\0")

  /** A 16-bit big-endian number, if it fits. */
  function PackU16(n: int): Result<Bytes, PyError> {
    if 0 <= n <= 65535 then Ok(BigEndian(n, 2)) else Err(StructError)
  }

  /** Each field after its 16-bit length, joined. */
  function JoinFields(fs: seq<Bytes>): Result<Bytes, PyError> {
    if fs == [] then Ok([])
    else
      var prefix := PackU16(|fs[0]|);
      if prefix.Err? then prefix
      else
        var rest := JoinFields(fs[1..]);
        if rest.Err? then rest else Ok(prefix.value + fs[0] + rest.value)
  }

  lemma {:induction false} JoinFieldsIsFields(fs: seq<Bytes>)
    ensures JoinFields(fs) == if Short(fs) then Ok(Fields(fs)) else Err(StructError)
  {
    if fs != [] {
      JoinFieldsIsFields(fs[1..]);
      assert forall i :: 1 <= i < |fs| ==> fs[i] == fs[1..][i - 1];
    }
  }

  /** The Deck's request message. `upper` is Python's full Unicode `str.upper`. */
  function DeckCanonicalMessage(c: Crypto, upper: string -> string,
                                timestamp: int, nonce: Bytes, verb: string, path: string, body: Bytes)
    : Result<Bytes, PyError>
  {
    if |nonce| != 16 then Err(ValueError)
    else if !IsAscii(upper(verb)) || !IsAscii(path) then Err(ValueError)
    else if !(0 <= timestamp < 0x1_0000_0000_0000_0000) then Err(StructError)
    else
      var joined := JoinFields([nonce, Ascii(upper(verb)), Ascii(path)]);
      if joined.Err? then joined
      else Ok(DECK_DOMAIN + BigEndian(timestamp, 8) + joined.value + c.sha256(body))
  }

  function DeckResponseMessage(c: Crypto, nonce: Bytes, path: string, status: int, body: Bytes)
    : Result<Bytes, PyError>
  {
    if |nonce| != 16 || !(100 <= status <= 999) then Err(ValueError)
    else if !IsAscii(path) then Err(ValueError)
    else
      var a, b, s := PackU16(|nonce|), PackU16(|path|), PackU16(status);
      if a.Err? then a else if b.Err? then b else if s.Err? then s
      else Ok(DECK_RESPONSE_DOMAIN + a.value + nonce + b.value + Ascii(path) + s.value + c.sha256(body))
  }

  /** Python's upper-casing agrees with Rust's on ASCII; elsewhere nothing is assumed. */
  ghost predicate UppersAscii(upper: string -> string) {
    forall s :: IsAscii(s) ==> upper(s) == Upper(s)
  }

  /** Host and Deck sign the same bytes for every ASCII method and path. They refuse the same inputs
      unless the method is not ASCII but becomes so in upper case: that, only the Deck signs. */
  lemma RequestSidesAgree(c: Crypto, upper: string -> string,
                          timestamp: u64, nonce: Bytes, verb: string, path: string, body: Bytes)
    requires UppersAscii(upper)
    ensures var deck := DeckCanonicalMessage(c, upper, timestamp, nonce, verb, path, body);
            && (RequestEncodable(nonce, verb, path) ==>
                  deck == Ok(RequestMessage(c, timestamp, nonce, verb, path, body)))
            && ((deck.Ok? <==> RequestEncodable(nonce, verb, path))
                <==> IsAscii(verb) || !RequestEncodable(nonce, upper(verb), path))
  {
    if |nonce| == 16 && IsAscii(upper(verb)) && IsAscii(path) {
      var parts: seq<Bytes> := [nonce, Ascii(upper(verb)), Ascii(path)];
      JoinFieldsIsFields(parts);
      assert |parts[1]| == |upper(verb)| && |parts[2]| == |path|;
    }
  }

  /** One such method: with a long s, which upper-cases to an ASCII letter. */
  lemma LongSDisagrees(c: Crypto, upper: string -> string, timestamp: u64, nonce: Bytes, body: Bytes)
    requires UppersAscii(upper) && upper("PO\U{017F}T") == "POST" && |nonce| == NONCE_LENGTH
    ensures DeckCanonicalMessage(c, upper, timestamp, nonce, "PO\U{017F}T", "/v1/shutdown", body).Ok?
    ensures !RequestEncodable(nonce, "PO\U{017F}T", "/v1/shutdown")
  {
    assert !IsAscii("PO\U{017F}T") by { assert "PO\U{017F}T"[2] == '\U{017F}'; }
    RequestSidesAgree(c, upper, timestamp, nonce, "PO\U{017F}T", "/v1/shutdown", body);
  }

  lemma ResponseConcatenates(nonce: Bytes, path: Bytes, status: Bytes, digest: Bytes)
    ensures RESPONSE_DOMAIN + BigEndian(|nonce|, 2) + nonce + BigEndian(|path|, 2) + path + status + digest
         == RESPONSE_DOMAIN + Fields([nonce, path]) + status + digest
  {
    FieldsOfTwo(nonce, path);
    assert Field(nonce) + Field(path) == BigEndian(|nonce|, 2) + nonce + BigEndian(|path|, 2) + path;
  }

  /** Host and Deck authenticate the same bytes for a response. The Deck refuses exactly the statuses
      outside 100 to 999 in addition to what the host refuses. */
  lemma ResponseSidesAgree(c: Crypto, nonce: Bytes, path: string, status: u16, body: Bytes)
    ensures DeckResponseMessage(c, nonce, path, status, body).Ok?
       <==> ResponseEncodable(nonce, path) && 100 <= status <= 999
    ensures DeckResponseMessage(c, nonce, path, status, body).Ok? ==>
              DeckResponseMessage(c, nonce, path, status, body).value == ResponseMessage(c, nonce, path, status, body)
  {
    if ResponseEncodable(nonce, path) {
      ResponseConcatenates(nonce, Ascii(path), BigEndian(status, 2), c.sha256(body));
    }
  }

  /** What the Deck binds a credential to. */
  function DeckAad(parts: seq<Bytes>, protocolVersion: nat): Bytes {
    DECK_AAD_DOMAIN + Fields(parts) + BigEndian(protocolVersion, 4)
  }

  /** Host and Deck bind a credential to the same bytes. */
  lemma AadSidesAgree(ctx: AadContext)
    ensures DeckAad([ctx.hostMessage, ctx.sessionId, ctx.hostname, ctx.hostVersion, ctx.hostId], ctx.protocolVersion)
         == CredentialAad(ctx)
  {
  }

  /** Which exception the Deck raises for a request: for a nonce or text that cannot be encoded, or for a
      length or a timestamp out of range. */
  lemma DeckRequestErrors(c: Crypto, upper: string -> string,
                          timestamp: int, nonce: Bytes, verb: string, path: string, body: Bytes)
    ensures var r := DeckCanonicalMessage(c, upper, timestamp, nonce, verb, path, body);
            var encodes := |nonce| == 16 && IsAscii(upper(verb)) && IsAscii(path);
            var fits := && 0 <= timestamp < 0x1_0000_0000_0000_0000
                        && |upper(verb)| < 0x1_0000 && |path| < 0x1_0000;
            && (r == Err(ValueError) <==> !encodes) && (r == Err(StructError) <==> encodes && !fits)
  {
    if |nonce| == 16 && IsAscii(upper(verb)) && IsAscii(path) {
      var parts: seq<Bytes> := [nonce, Ascii(upper(verb)), Ascii(path)];
      JoinFieldsIsFields(parts);
      assert |parts[1]| == |upper(verb)| && |parts[2]| == |path|;
    }
  }

  /** The Deck's loop over the associated-data fields; `protocolVersion` comes from a decoded
      response and may exceed 32 bits. */
  method DeckCredentialAad(parts: seq<Bytes>, protocolVersion: nat) returns (r: Option<Bytes>)
    ensures r.Some? <==> Short(parts) && protocolVersion < 0x1_0000_0000
    ensures r.Some? ==> r.value == DeckAad(parts, protocolVersion)
  {
    var output := DECK_AAD_DOMAIN;
    for i := 0 to |parts|
      invariant Short(parts[..i])
      invariant output == DECK_AAD_DOMAIN + Fields(parts[..i])
    {
      if |parts[i]| > 65535 {
        return None;
      }
      output := output + BigEndian(|parts[i]|, 2);
      output := output + parts[i];
      FieldsGrow(DECK_AAD_DOMAIN, parts, i);
    }
    assert parts[..|parts|] == parts;
    if protocolVersion >= 0x1_0000_0000 {
      return None;
    }
    return Some(output + BigEndian(protocolVersion, 4));
  }
}
