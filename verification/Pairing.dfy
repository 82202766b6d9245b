/** The host's pairing code: the sessions opened against it, the failed confirmations
    charged to each source address, and the cached completion. */
module Pairing {
  import opened Common
  import Canonical

  /** Nanoseconds on a clock that never runs backwards. */
  type Instant = int

  const SECOND: int := 1_000_000_000
  const PAIRING_LIFETIME: int := 300 * SECOND
  const MAX_CONFIRMATION_FAILURES: nat := 5
  const MAX_PENDING_SESSIONS: nat := 128
  const MAX_PENDING_SESSIONS_PER_SOURCE: nat := 8
  const MAX_FAILURE_SOURCES: nat := 256
  const CONFIRMATION_DOMAIN: Bytes := Ascii("deckymyrig-pairing-confirm-v1\0")

  type SessionId = b: Bytes | |b| == 16 witness seq(16, _ => 0)
  type Credential = b: Bytes | |b| == 32 witness seq(32, _ => 0)

  /** The peer's IP address, when the connection exposes one. */
  type Source = Option<Bytes>

  datatype PairingError = Expired | RateLimited | Invalid | Encryption

  /** What SPAKE2 yields for one client message. */
  datatype Exchange = Exchange(shared: Bytes, hostMessage: Bytes)

  datatype Pending = Pending(
    shared: Bytes, clientMessage: Bytes, hostMessage: Bytes, created: Instant, source: Source)

  datatype PairingResult = PairingResult(
    hostMessage: Bytes, nonce: Bytes, encryptedCredential: Bytes, credential: Credential)

  datatype Completed = Completed(confirmation: Bytes, result: PairingResult, created: Instant)

  datatype PairingStart = PairingStart(hostMessage: Bytes, sessionId: SessionId)

  /** Host metadata bound to the credential; texts as UTF-8 bytes. */
  datatype CredentialContext = CredentialContext(
    hostname: Bytes, hostVersion: Bytes, protocolVersion: u32, hostId: Bytes)

  /** The contents of a `PairingCode`. */
  datatype Code = Code(
    code: string,
    created: Instant,
    failures: map<Source, byte>,
    pending: map<SessionId, Pending>,
    completed: map<SessionId, Completed>)
  {
    function FailureCount(source: Source): nat {
      if source in failures then failures[source] else 0
    }

    function Open(source: Source): set<SessionId> {
      set s | s in pending && pending[s].source == source
    }

    function PendingSources(): set<Source> {
      set s | s in pending :: pending[s].source
    }
  }

  // ---------------------------------------------------------------- operations on values

  predicate Live(created: Instant, now: Instant) {
    now - created <= PAIRING_LIFETIME
  }

  predicate ValidCode(code: string) {
    |code| == 6 && forall i :: 0 <= i < 6 ==> '0' <= code[i] <= '9'
  }

  function Generated(code: string, now: Instant): Code {
    Code(code, now, map[], map[], map[])
  }

  function Aged(code: string, age: int, now: Instant): Code {
    var limit := PAIRING_LIFETIME + SECOND;
    Code(code, now - (if age < limit then age else limit), map[], map[], map[])
  }

  function ExpiresIn(c: Code, now: Instant): int {
    if now - c.created < PAIRING_LIFETIME then PAIRING_LIFETIME - (now - c.created) else 0
  }

  function Pruned(c: Code, now: Instant): Code {
    c.(pending := map s | s in c.pending && Live(c.pending[s].created, now) :: c.pending[s],
       completed := map s | s in c.completed && Live(c.completed[s].created, now) :: c.completed[s])
  }

  predicate Throttled(c: Code, source: Source) {
    || c.FailureCount(source) >= MAX_CONFIRMATION_FAILURES
    || (source !in c.failures && |c.failures| >= MAX_FAILURE_SOURCES)
    || |c.pending| >= MAX_PENDING_SESSIONS
    || (source.Some? && |c.Open(source)| >= MAX_PENDING_SESSIONS_PER_SOURCE)
  }

  /** `start_for_source`. `exchange` is what SPAKE2 made of the client message, and
      `session` the random identifier; it may collide with an open session. */
  function Start(c: Code, now: Instant, source: Source, clientMessage: Bytes, exchange: Option<Exchange>,
                 session: SessionId)
    : (Code, Result<PairingStart, PairingError>)
  {
    if !Live(c.created, now) then (c, Err(Expired))
    else
      var p := Pruned(c, now);
      if Throttled(p, source) then (p, Err(RateLimited))
      else if exchange.None? then (p, Err(Invalid))
      else
        var added := Pending(exchange.value.shared, clientMessage, exchange.value.hostMessage, now, source);
        (p.(pending := p.pending[session := added]), Ok(PairingStart(exchange.value.hostMessage, session)))
  }

  function Confirmation(k: Crypto, session: SessionId, p: Pending): Bytes {
    k.hmac(p.shared, CONFIRMATION_DOMAIN + p.clientMessage + p.hostMessage + session)
  }

  function Charge(failures: map<Source, byte>, source: Source): map<Source, byte> {
    failures[source := if source !in failures then 1 else if failures[source] == 255 then 255 else failures[source] + 1]
  }

  /** A wrong confirmation closes the session and charges its source. */
  function Refused(c: Code, session: SessionId): Code
    requires session in c.pending
  {
    c.(pending := c.pending - {session}, failures := Charge(c.failures, c.pending[session].source))
  }

  function AadParts(p: Pending, session: SessionId, ctx: CredentialContext): seq<Bytes> {
    [p.hostMessage, session, ctx.hostname, ctx.hostVersion, ctx.hostId]
  }

  function Issue(k: Crypto, p: Pending, session: SessionId, ctx: CredentialContext, credential: Credential,
                 nonce: Bytes)
    : Result<PairingResult, PairingError>
  {
    var parts := AadParts(p, session, ctx);
    if !Canonical.Short(parts) then Err(Invalid)
    else
      var sealed := k.seal(p.shared, nonce, credential, Canonical.AadOf(parts, ctx.protocolVersion));
      if sealed.None? then Err(Encryption)
      else Ok(PairingResult(p.hostMessage, nonce, sealed.value, credential))
  }

  /** `finish`. `credential` and `nonce` are the random bytes drawn if the confirmation holds. */
  function Finish(c: Code, now: Instant, k: Crypto, session: Bytes, confirmation: Bytes, ctx: CredentialContext,
                  credential: Credential, nonce: Bytes)
    : (Code, Result<PairingResult, PairingError>)
  {
    if |session| != 16 then (c, Err(Invalid))
    else
      var p := Pruned(c, now);
      if session in p.completed then
        (p, if p.completed[session].confirmation == confirmation then Ok(p.completed[session].result) else Err(Invalid))
      else if session !in p.pending then (p, Err(Invalid))
      else if confirmation != Confirmation(k, session, p.pending[session]) then
        var d := Refused(p, session);
        (d, Err(if d.FailureCount(p.pending[session].source) >= MAX_CONFIRMATION_FAILURES then RateLimited
                else Invalid))
      else (p, Issue(k, p.pending[session], session, ctx, credential, nonce))
  }

  predicate IsCompleted(c: Code, session: Bytes) {
    |session| == 16 && session in c.completed
  }

  function Commit(c: Code, now: Instant, session: Bytes, confirmation: Bytes, result: PairingResult)
    : (Code, Result<(), PairingError>)
  {
    if |session| != 16 || session !in c.pending then (c, Err(Invalid))
    else
      (c.(pending := map[], completed := map[session := Completed(confirmation, result, now)],
          created := now - PAIRING_LIFETIME - SECOND),
       Ok(()))
  }

  // ---------------------------------------------------------------- the mutable object

  class PairingCode {
    var code: string
    var created: Instant
    var confirmationFailures: map<Source, byte>
    var pending: map<SessionId, Pending>
    var completed: map<SessionId, Completed>

    ghost function View(): Code
      reads this
    {
      Code(code, created, confirmationFailures, pending, completed)
    }

    constructor Generate(value: string, now: Instant)
      ensures View() == Generated(value, now)
    {
      code, created := value, now;
      confirmationFailures, pending, completed := map[], map[], map[];
    }

    constructor WithAge(value: string, age: int, now: Instant)
      ensures View() == Aged(value, age, now)
    {
      code := value;
      created := now - if age < PAIRING_LIFETIME + SECOND then age else PAIRING_LIFETIME + SECOND;
      confirmationFailures, pending, completed := map[], map[], map[];
    }

    static method FromCodeWithAge(value: string, age: int, now: Instant) returns (r: Result<PairingCode, PairingError>)
      ensures r.Ok? <==> ValidCode(value)
      ensures r.Ok? ==> fresh(r.value) && r.value.View() == Aged(value, age, now)
    {
      if |value| != 6 {
        return Err(Invalid);
      }
      for i := 0 to 6
        invariant forall j :: 0 <= j < i ==> '0' <= value[j] <= '9'
      {
        if !('0' <= value[i] <= '9') {
          return Err(Invalid);
        }
      }
      var p := new PairingCode.WithAge(value, age, now);
      return Ok(p);
    }

    method PruneSessions(now: Instant)
      modifies this`pending, this`completed
      ensures View() == Pruned(old(View()), now)
    {
      pending := map s | s in pending && Live(pending[s].created, now) :: pending[s];
      completed := map s | s in completed && Live(completed[s].created, now) :: completed[s];
    }

    method StartForSource(now: Instant, source: Source, clientMessage: Bytes, exchange: Option<Exchange>,
                          session: SessionId)
      returns (r: Result<PairingStart, PairingError>)
      modifies this`pending, this`completed
      ensures (View(), r) == Start(old(View()), now, source, clientMessage, exchange, session)
    {
      if now - created > PAIRING_LIFETIME {
        return Err(Expired);
      }
      PruneSessions(now);
      var failures := if source in confirmationFailures then confirmationFailures[source] else 0;
      var sameSource := set s | s in pending && pending[s].source == source;
      assert sameSource == View().Open(source);
      if || failures >= MAX_CONFIRMATION_FAILURES
         || (source !in confirmationFailures && |confirmationFailures| >= MAX_FAILURE_SOURCES)
         || |pending| >= MAX_PENDING_SESSIONS
         || (source.Some? && |sameSource| >= MAX_PENDING_SESSIONS_PER_SOURCE)
      {
        return Err(RateLimited);
      }
      if exchange.None? {
        return Err(Invalid);
      }
      var added := Pending(exchange.value.shared, clientMessage, exchange.value.hostMessage, now, source);
      pending := pending[session := added];
      return Ok(PairingStart(exchange.value.hostMessage, session));
    }

    method FinishSession(k: Crypto, now: Instant, session: Bytes, confirmation: Bytes, ctx: CredentialContext,
                         credential: Credential, nonce: Bytes)
      returns (r: Result<PairingResult, PairingError>)
      modifies this`pending, this`completed, this`confirmationFailures
      ensures (View(), r) == Finish(old(View()), now, k, session, confirmation, ctx, credential, nonce)
    {
      if |session| != 16 {
        return Err(Invalid);
      }
      PruneSessions(now);
      if session in completed {
        return if completed[session].confirmation == confirmation then Ok(completed[session].result) else Err(Invalid);
      }
      if session !in pending {
        return Err(Invalid);
      }
      var p := pending[session];
      if confirmation != k.hmac(p.shared, CONFIRMATION_DOMAIN + p.clientMessage + p.hostMessage + session) {
        pending := pending - {session};
        if p.source !in confirmationFailures {
          confirmationFailures := confirmationFailures[p.source := 0];
        }
        var failures := confirmationFailures[p.source];
        failures := if failures == 255 then 255 else failures + 1;
        confirmationFailures := confirmationFailures[p.source := failures];
        assert confirmationFailures == Charge(old(confirmationFailures), p.source);
        return Err(if failures >= MAX_CONFIRMATION_FAILURES then RateLimited else Invalid);
      }
      var aad := Canonical.HostCredentialAad(AadParts(p, session, ctx), ctx.protocolVersion);
      if aad.None? {
        return Err(Invalid);
      }
      var sealed := k.seal(p.shared, nonce, credential, aad.value);
      if sealed.None? {
        return Err(Encryption);
      }
      return Ok(PairingResult(p.hostMessage, nonce, sealed.value, credential));
    }

    method CommitSession(now: Instant, session: Bytes, confirmation: Bytes, result: PairingResult)
      returns (r: Result<(), PairingError>)
      modifies this`pending, this`completed, this`created
      ensures (View(), r) == Commit(old(View()), now, session, confirmation, result)
    {
      if |session| != 16 || session !in pending {
        return Err(Invalid);
      }
      pending := map[];
      completed := map[];
      completed := completed[session := Completed(confirmation, result, now)];
      created := now - PAIRING_LIFETIME - SECOND;
      return Ok(());
    }
  }
}
