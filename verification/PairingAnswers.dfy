/** Exactly what a pairing code answers to each request, and what that leaves. */
module PairingAnswers {
  import opened Common
  import opened Pairing
  import opened PairingLimits

  /** The sessions no older than three hundred seconds. */
  function LiveSessions(c: Code, now: Instant): set<SessionId> {
    set s | s in c.pending && now - c.pending[s].created <= 300 * SECOND
  }

  function LiveSessionsOf(c: Code, now: Instant, source: Source): set<SessionId> {
    set s | s in c.pending && now - c.pending[s].created <= 300 * SECOND && c.pending[s].source == source
  }

  /** The source has five failures, or is one too many, or too many sessions are live, in all or of one
      address. */
  predicate Limited(c: Code, now: Instant, source: Source) {
    || c.FailureCount(source) >= 5 || (source !in c.failures && |c.failures| >= 256)
    || |LiveSessions(c, now)| >= 128 || (source.Some? && |LiveSessionsOf(c, now, source)| >= 8)
  }

  /** Exactly what opening a session is answered, and what it leaves. */
  lemma StartAnswers(c: Code, now: Instant, source: Source, clientMessage: Bytes, exchange: Option<Exchange>,
                     session: SessionId)
    ensures var (d, r) := Start(c, now, source, clientMessage, exchange, session);
            var expired := now - c.created > 300 * SECOND;
            && (r == Err(Expired) <==> expired)
            && (r == Err(RateLimited) <==> !expired && Limited(c, now, source))
            && (r == Err(Invalid) <==> !expired && !Limited(c, now, source) && exchange.None?)
            && (r.Ok? ==> exchange.Some? && r.value == PairingStart(exchange.value.hostMessage, session))
            && d == c.(pending := d.pending, completed := d.completed)
  {
    var p := Pruned(c, now);
    assert p.pending.Keys == LiveSessions(c, now);
    assert p.Open(source) == LiveSessionsOf(c, now, source);
  }

  /** `d` has the live sessions of `c`, and the added one if there is one. */
  ghost predicate LeavesLive(c: Code, now: Instant, d: Code, session: SessionId, added: Option<Pending>) {
    && d.pending.Keys == LiveSessions(c, now) + (if added.Some? then {session} else {})
    && (forall s :: s in LiveSessions(c, now) && (added.None? || s != session) ==> d.pending[s] == c.pending[s])
    && (added.Some? ==> d.pending[session] == added.value)
  }

  /** And the sessions afterwards: the live ones, and the new one if it was granted. */
  lemma StartLeaves(c: Code, now: Instant, source: Source, clientMessage: Bytes, exchange: Option<Exchange>,
                    session: SessionId)
    requires now - c.created <= 300 * SECOND
    ensures var (d, r) := Start(c, now, source, clientMessage, exchange, session);
            && (r.Err? ==> LeavesLive(c, now, d, session, None))
            && (r.Ok? ==>
                  && exchange.Some?
                  && LeavesLive(c, now, d, session,
                                Some(Pending(exchange.value.shared, clientMessage, exchange.value.hostMessage, now,
                                             source))))
  {
    StartForm(c, now, source, clientMessage, exchange, session);
    PrunedLeaves(c, now);
    if exchange.Some? {
      AddedLeaves(c, now, session,
                  Pending(exchange.value.shared, clientMessage, exchange.value.hostMessage, now, source));
    }
  }

  lemma StartForm(c: Code, now: Instant, source: Source, clientMessage: Bytes, exchange: Option<Exchange>,
                  session: SessionId)
    requires now - c.created <= 300 * SECOND
    ensures var (d, r) := Start(c, now, source, clientMessage, exchange, session);
            && (r.Err? ==> d == Pruned(c, now))
            && (r.Ok? ==>
                  && exchange.Some?
                  && d == WithSession(Pruned(c, now), session,
                                      Pending(exchange.value.shared, clientMessage, exchange.value.hostMessage, now,
                                              source)))
  {
  }

  lemma AddedLeaves(c: Code, now: Instant, session: SessionId, added: Pending)
    ensures LeavesLive(c, now, WithSession(Pruned(c, now), session, added), session, Some(added))
  {
    PrunedLeaves(c, now);
    var p := Pruned(c, now);
    assert WithSession(p, session, added).pending.Keys == p.pending.Keys + {session};
  }

  lemma PrunedLeaves(c: Code, now: Instant)
    ensures forall session :: LeavesLive(c, now, Pruned(c, now), session, None)
  {
    assert Pruned(c, now).pending.Keys == LiveSessions(c, now);
  }

  /** A code loaded with an age is live exactly within the lifetime, and never counts as older than a second
      past it. */
  lemma AgedExactly(code: string, age: nat, now: Instant)
    ensures var c := Aged(code, age, now);
            && (Live(c.created, now) <==> age <= 300 * SECOND) && (Live(c.created, now) ==> c.created == now - age)
            && now - c.created <= 301 * SECOND && c == Generated(code, c.created)
  {
  }

  /** The session is open, and no older than three hundred seconds. */
  predicate Awaits(c: Code, now: Instant, session: Bytes) {
    |session| == 16 && session in c.pending && now - c.pending[session].created <= 300 * SECOND
  }

  /** What the session's client computes from the shared secret and the two messages. */
  function RightConfirmation(k: Crypto, session: SessionId, p: Pending): Bytes {
    k.hmac(p.shared, Ascii("deckymyrig-pairing-confirm-v1\0") + p.clientMessage + p.hostMessage + session)
  }

  /** A wrong confirmation on an open session closes it and is charged to its source; the fifth and later
      ones are answered as limited. */
  lemma WrongConfirmation(c: Code, now: Instant, k: Crypto, session: Bytes, confirmation: Bytes,
                          ctx: CredentialContext, credential: Credential, nonce: Bytes)
    requires Sound(c, now) && Awaits(c, now, session)
    requires confirmation != RightConfirmation(k, session, c.pending[session])
    ensures var (d, r) := Finish(c, now, k, session, confirmation, ctx, credential, nonce);
            var source := c.pending[session].source;
            && r == Err(if c.FailureCount(source) >= 4 then RateLimited else Invalid)
            && d.FailureCount(source) == c.FailureCount(source) + 1
            && (forall other :: other != source ==> d.FailureCount(other) == c.FailureCount(other))
            && d.pending.Keys == LiveSessions(c, now) - {session}
  {
    AwaitedIsPending(c, now, session);
    var source := c.pending[session].source;
    assert SourceWithinBudget(c, source);
    RefusedCounts(Pruned(c, now), session, source);
    assert Pruned(c, now).pending.Keys == LiveSessions(c, now);
  }

  lemma RefusedCounts(p: Code, session: SessionId, source: Source)
    requires session in p.pending && p.pending[session].source == source && p.FailureCount(source) < 255
    ensures Refused(p, session).FailureCount(source) == p.FailureCount(source) + 1
    ensures forall other :: other != source ==> Refused(p, session).FailureCount(other) == p.FailureCount(other)
  {
  }

  /** The metadata that the credential is bound to. */
  function BoundTo(p: Pending, session: Bytes, ctx: CredentialContext): Canonical.AadContext {
    Canonical.AadContext(p.hostMessage, session, ctx.hostname, ctx.hostVersion, ctx.hostId, ctx.protocolVersion)
  }

  /** The right confirmation is answered with the drawn credential, encrypted under the shared secret and
      bound to the metadata; or refused if the metadata is too long, or encryption fails. It is never
      charged. */
  lemma RightConfirmationAnswers(c: Code, now: Instant, k: Crypto, session: Bytes, ctx: CredentialContext,
                                 credential: Credential, nonce: Bytes)
    requires Sound(c, now) && Awaits(c, now, session)
    ensures var p := c.pending[session];
            var (d, r) := Finish(c, now, k, session, RightConfirmation(k, session, p), ctx, credential, nonce);
            var bound := BoundTo(p, session, ctx);
            var sealed := k.seal(p.shared, nonce, credential, Canonical.CredentialAad(bound));
            && d.failures == c.failures && d.pending.Keys == LiveSessions(c, now)
            && r == (if !Canonical.Short(bound.Parts()) then Err(Invalid)
                     else if sealed.None? then Err(Encryption)
                     else Ok(PairingResult(p.hostMessage, nonce, sealed.value, credential)))
  {
    AwaitedIsPending(c, now, session);
    var p := c.pending[session];
    assert AadParts(p, session, ctx) == BoundTo(p, session, ctx).Parts();
    assert Pruned(c, now).pending.Keys == LiveSessions(c, now);
  }

  /** Without an open session, a confirmation is answered from the cache exactly if it repeats the one that
      completed, within three hundred seconds; and otherwise refused. It is never charged. */
  lemma OtherConfirmation(c: Code, now: Instant, k: Crypto, session: Bytes, confirmation: Bytes,
                          ctx: CredentialContext, credential: Credential, nonce: Bytes)
    requires !Awaits(c, now, session)
    ensures var (d, r) := Finish(c, now, k, session, confirmation, ctx, credential, nonce);
            var cached := && |session| == 16 && session in c.completed
                          && now - c.completed[session].created <= 300 * SECOND
                          && c.completed[session].confirmation == confirmation;
            d.failures == c.failures && r == if cached then Ok(c.completed[session].result) else Err(Invalid)
  {
  }

  lemma AwaitedIsPending(c: Code, now: Instant, session: SessionId)
    requires Sound(c, now) && Awaits(c, now, session)
    ensures session in Pruned(c, now).pending && Pruned(c, now).pending[session] == c.pending[session]
    ensures Pruned(c, now).completed == map[]
  {
    assert c.completed == map[];
  }
}
