/** Pairing from both ends: the Deck's client against the host, over every run. */
module Handshake {
  import opened Common
  import opened Canonical
  import opened Pairing
  import opened PairingLimits
  import PairingAnswers
  import opened Host
  import opened HostRuns
  import opened HostState
  import opened HostPromises

  // ---------------------------------------------------------------- the Deck's client

  /** The confirmation that the client computes from the first response. */
  function DeckConfirmation(k: Crypto, shared: Bytes, clientMessage: Bytes, started: PairResponse): Bytes {
    k.hmac(shared,
           Ascii("deckymyrig-pairing-confirm-v1\0") + clientMessage + started.hostMessage + started.sessionId)
  }

  /** The fields that the client binds, all of them from the response itself. */
  function DeckParts(r: PairResponse): seq<Bytes> {
    [r.hostMessage, r.sessionId, r.hostname, r.hostVersion, r.hostId]
  }

  /** The credential that the client takes from the second response, if it accepts it. */
  function DeckCredential(k: Crypto, shared: Bytes, r: PairResponse): Option<Bytes> {
    if r.protocolVersion != 1 || !Short(DeckParts(r)) then None
    else
      var credential := k.open(shared, r.nonce, r.ciphertext, DeckAad(DeckParts(r), r.protocolVersion));
      if credential.None? || |credential.value| != 32 then None else credential
  }

  /** Decryption undoes encryption. */
  ghost predicate Inverts(k: Crypto) {
    forall key, nonce, text, aad :: k.seal(key, nonce, text, aad).Some? ==>
      k.open(key, nonce, k.seal(key, nonce, text, aad).value, aad) == Some(text)
  }

  // ---------------------------------------------------------------- what the client reads is what is stored

  /** The response to a confirmation that succeeded. */
  function ResponseTo(site: Site, w: World, e: Event): PairResponse
    requires e.ConfirmPairing? && Reply(site, w, e).Paired?
  {
    PairingResponse(site, Next(site, w, e).app.identity, e.sessionId, Reply(site, w, e).result)
  }

  /** In every run, a client that knows the session's shared secret reads from the response to a committed
      confirmation exactly the credential that memory and disk now hold. */
  lemma ClientReadsStored(site: Site, hostId: Bytes, code: string, t: nat, es: seq<Event>, e: Event)
    requires ValidCode(code) && Inverts(site.crypto)
    ensures var w := Run(site, Installed(hostId, code, t), es);
            Commits(site, w, e) ==>
              var v := Next(site, w, e);
              && e.sessionId in w.app.pairing.pending
              && DeckCredential(site.crypto, w.app.pairing.pending[e.sessionId].shared, ResponseTo(site, w, e))
                 == v.app.identity.credential == v.app.disk.credential == Some(e.credential)
  {
    AlwaysReliable(site, hostId, code, t, es);
    var w := Run(site, Installed(hostId, code, t), es);
    if Commits(site, w, e) {
      CommitReads(site, w, e);
    }
  }

  lemma CommitReads(site: Site, w: World, e: Event)
    requires Reliable(w) && Inverts(site.crypto) && Commits(site, w, e)
    ensures var v := Next(site, w, e);
            && e.sessionId in w.app.pairing.pending
            && DeckCredential(site.crypto, w.app.pairing.pending[e.sessionId].shared, ResponseTo(site, w, e))
               == v.app.identity.credential == v.app.disk.credential == Some(e.credential)
  {
    CommitsExactly(site, w, e);
    CommitEffects(site, w, e);
    var p, ctx := w.app.pairing.pending[e.sessionId], Context(site, w.app.identity.hostId);
    ReplyIsSealed(site, w, e);
    var r := ResponseTo(site, w, e);
    assert DeckParts(r) == PairingAnswers.BoundTo(p, e.sessionId, ctx).Parts();
    AadSidesAgree(PairingAnswers.BoundTo(p, e.sessionId, ctx));
  }

  /** The reply to a commit carries the sealed credential. */
  lemma ReplyIsSealed(site: Site, w: World, e: Event)
    requires Reliable(w) && Commits(site, w, e) && Completes(site, w, e)
    ensures var p, ctx := w.app.pairing.pending[e.sessionId], Context(site, w.app.identity.hostId);
            var bound := PairingAnswers.BoundTo(p, e.sessionId, ctx);
            var sealed := site.crypto.seal(p.shared, e.nonce, e.credential, CredentialAad(bound));
            && Short(bound.Parts()) && sealed.Some?
            && Reply(site, w, e) == Paired(PairingResult(p.hostMessage, e.nonce, sealed.value, e.credential))
  {
    var ctx := Context(site, w.app.identity.hostId);
    PairingAnswers.RightConfirmationAnswers(w.app.pairing, w.now, site.crypto, e.sessionId, ctx, e.credential, e.nonce);
    ReplyOfFinish(site, w, e);
  }

  lemma ReplyOfFinish(site: Site, w: World, e: Event)
    requires e.ConfirmPairing? && Reply(site, w, e).Paired?
    ensures var ctx := Context(site, w.app.identity.hostId);
            Finish(w.app.pairing, w.now, site.crypto, e.sessionId, e.confirmation, ctx, e.credential, e.nonce).1
            == Ok(Reply(site, w, e).result)
  {
  }

  /** Both responses name the host and its version, as the client checks and stores them. */
  predicate NamesHost(site: Site, hostId: Bytes, r: PairResponse) {
    && r.hostname == site.hostname && r.hostVersion == Ascii("0.1.0") && r.protocolVersion == 1
    && r.hostId == hostId
  }

  // ---------------------------------------------------------------- the session stays open

  /** The event closes the session, or takes its identifier. */
  predicate Disturbs(site: Site, w: World, e: Event, session: SessionId) {
    || Replaces(e) || Commits(site, w, e)
    || (e.OpenPairing? && e.session == session) || (e.ConfirmPairing? && e.sessionId == session)
  }

  ghost predicate Undisturbed(site: Site, w: World, es: seq<Event>, session: SessionId) {
    forall k :: 0 <= k < |es| ==> !Disturbs(site, Run(site, w, es[..k]), es[k], session)
  }

  ghost predicate Holds(w: World, session: SessionId, p: Pending) {
    session in w.app.pairing.pending && w.app.pairing.pending[session] == p
  }

  lemma StartKeeps(c: Code, now: Instant, e: Event, session: SessionId)
    requires e.OpenPairing? && e.session != session && session in c.pending && Live(c.pending[session].created, now)
    ensures var d := Start(c, now, e.source, e.clientMessage, e.exchange, e.session).0;
            session in d.pending && d.pending[session] == c.pending[session]
  {
  }

  lemma FinishKeeps(c: Code, now: Instant, k: Crypto, other: Bytes, confirmation: Bytes, ctx: CredentialContext,
                    credential: Credential, nonce: Bytes, session: SessionId)
    requires other != session && session in c.pending && Live(c.pending[session].created, now)
    ensures var d := Finish(c, now, k, other, confirmation, ctx, credential, nonce).0;
            session in d.pending && d.pending[session] == c.pending[session]
  {
    FinishedTables(c, now, k, other, confirmation, ctx, credential, nonce);
    assert session in Pruned(c, now).pending;
  }

  lemma ConfirmKeeps(site: Site, w: World, e: Event, session: SessionId, p: Pending)
    requires Reliable(w) && e.ConfirmPairing? && Enabled(w, e) && !Commits(site, w, e) && e.sessionId != session
    requires Holds(w, session, p) && Live(p.created, w.now)
    ensures Holds(Next(site, w, e), session, p)
  {
    var ctx := Context(site, w.app.identity.hostId);
    FinishKeeps(w.app.pairing, w.now, site.crypto, e.sessionId, e.confirmation, ctx, e.credential, e.nonce, session);
    ConfirmEffects(site, w.app, w.now, e.sessionId, e.confirmation, e.credential, e.nonce, e.saved);
    DeclinedCode(site, w.app, w.now, e.sessionId, e.confirmation, e.credential, e.nonce, e.saved);
    NextConfirms(site, w, e);
  }

  /** A confirmation that does not commit leaves the code as `finish` did. */
  lemma DeclinedCode(site: Site, a: App, now: nat, session: Bytes, confirmation: Bytes, credential: Credential,
                     nonce: Bytes, saved: bool)
    requires var (b, r) := FinishPairing(site, a, now, session, confirmation, credential, nonce, saved);
             r != Panicked && (r.Paired? ==> IsCompleted(a.pairing, session))
    ensures FinishPairing(site, a, now, session, confirmation, credential, nonce, saved).0.pairing
         == Finish(a.pairing, now, site.crypto, session, confirmation, Context(site, a.identity.hostId), credential,
                   nonce).0
  {
  }

  lemma SessionStep(site: Site, w: World, e: Event, session: SessionId, p: Pending)
    requires Reliable(w) && !Disturbs(site, w, e, session) && Holds(w, session, p) && Live(p.created, w.now)
    ensures Holds(Next(site, w, e), session, p)
  {
    if Enabled(w, e) {
      if Quiet(e) {
        QuietEffects(site, w, e);
      } else if e.ConfirmPairing? {
        ConfirmKeeps(site, w, e, session, p);
      } else if e.OpenPairing? {
        StartKeeps(w.app.pairing, w.now, e, session);
      }
    }
  }

  lemma {:induction false} SessionKept(site: Site, w: World, es: seq<Event>, session: SessionId, p: Pending)
    requires Reliable(w) && Undisturbed(site, w, es, session) && Holds(w, session, p)
    requires Live(p.created, Run(site, w, es).now)
    ensures Holds(Run(site, w, es), session, p) && Reliable(Run(site, w, es))
  {
    if es != [] {
      var n := |es| - 1;
      forall k | 0 <= k < n ensures !Disturbs(site, Run(site, w, es[..n][..k]), es[..n][k], session) {
        assert es[..n][..k] == es[..k] && !Disturbs(site, Run(site, w, es[..k]), es[k], session);
      }
      ClockAdvances(site, Run(site, w, es[..n]), es[n]);
      SessionKept(site, w, es[..n], session, p);
      assert !Disturbs(site, Run(site, w, es[..n]), es[n], session);
      SessionStep(site, Run(site, w, es[..n]), es[n], session, p);
      ReliableStep(site, Run(site, w, es[..n]), es[n]);
    }
  }

  // ---------------------------------------------------------------- the whole handshake

  /** Encryption works, and what the credential is bound to fits its length prefixes. */
  ghost predicate Sealable(site: Site, hostId: Bytes, hostMessage: Bytes) {
    && |site.hostname| <= 65535 && |hostId| <= 65535 && |hostMessage| <= 65535
    && forall key, nonce, text, aad :: site.crypto.seal(key, nonce, text, aad).Some?
  }

  /** The first response to a session that was opened. */
  function Started(site: Site, w: World, e: Event): PairResponse
    requires Opens(w, e)
  {
    StartResponse(site, w.app.identity,
                  OpenSession(w.app, w.now, e.source, e.clientMessage, e.exchange, e.session).1.value)
  }

  /** The client's second request. */
  function Confirming(site: Site, shared: Bytes, clientMessage: Bytes, started: PairResponse, credential: Credential,
                      nonce: Bytes): Event
  {
    ConfirmPairing(started.sessionId, DeckConfirmation(site.crypto, shared, clientMessage, started), credential, nonce,
                   true)
  }

  /** In every run, a client that opens a session and then, within three hundred seconds and whatever else
      happens, confirms it from the response it got, pairs: if the session is not disturbed and the
      identity is saved, the confirmation commits, and the client reads the credential that is stored. */
  lemma HandshakeSucceeds(site: Site, hostId: Bytes, code: string, t: nat, before: seq<Event>, first: Event,
                          between: seq<Event>, credential: Credential, nonce: Bytes)
    requires ValidCode(code) && Inverts(site.crypto)
    requires Opens(Run(site, Installed(hostId, code, t), before), first)
    requires Sealable(site, hostId, first.exchange.value.hostMessage)
    requires var w0 := Run(site, Installed(hostId, code, t), before);
             var w1 := Next(site, w0, first);
             var w2 := Run(site, w1, between);
             && Undisturbed(site, w1, between, first.session)
             && w2.now <= w0.now + 300 * SECOND && credential !in w2.issued
    ensures var w0 := Run(site, Installed(hostId, code, t), before);
            var w2 := Run(site, Next(site, w0, first), between);
            var shared, started := first.exchange.value.shared, Started(site, w0, first);
            var e := Confirming(site, shared, first.clientMessage, started, credential, nonce);
            var v := Next(site, w2, e);
            && Commits(site, w2, e)
            && DeckCredential(site.crypto, shared, ResponseTo(site, w2, e)) == Some(credential)
            && v.app.identity.credential == v.app.disk.credential == Some(credential)
            && NamesHost(site, hostId, started) && started.nonce == started.ciphertext == []
            && NamesHost(site, hostId, ResponseTo(site, w2, e))
            && ResponseTo(site, w2, e).sessionId == started.sessionId
  {
    var w0 := Run(site, Installed(hostId, code, t), before);
    AlwaysReliable(site, hostId, code, t, before);
    HostIdKept(site, hostId, code, t, before);
    HandshakeFrom(site, w0, first, between, credential, nonce);
  }

  lemma {:induction false} HostIdKept(site: Site, hostId: Bytes, code: string, t: nat, es: seq<Event>)
    requires ValidCode(code)
    ensures Run(site, Installed(hostId, code, t), es).app.identity.hostId == hostId
  {
    if es != [] {
      var n := |es| - 1;
      HostIdKept(site, hostId, code, t, es[..n]);
      CredentialChangesOnlyByPairing(site, hostId, code, t, es[..n], es[n]);
    }
  }

  lemma {:induction false} SameHostId(site: Site, w: World, es: seq<Event>)
    requires Reliable(w)
    ensures Run(site, w, es).app.identity.hostId == w.app.identity.hostId
  {
    if es != [] {
      var n := |es| - 1;
      SameHostId(site, w, es[..n]);
      RunIsReliable(site, w, es[..n]);
      CredentialStep(site, Run(site, w, es[..n]), es[n]);
    }
  }

  /** The session that the first request opens, and the response to it. */
  lemma SessionOpened(site: Site, w: World, first: Event)
    requires Opens(w, first)
    ensures var x, v := first.exchange, Next(site, w, first);
            && x.Some? && v.now == w.now && v.app.identity == w.app.identity
            && Holds(v, first.session,
                     Pending(x.value.shared, first.clientMessage, x.value.hostMessage, w.now, first.source))
            && Started(site, w, first).hostMessage == x.value.hostMessage
            && Started(site, w, first).sessionId == first.session
            && Started(site, w, first).nonce == Started(site, w, first).ciphertext == []
            && NamesHost(site, w.app.identity.hostId, Started(site, w, first))
  {
    PairingAnswers.StartAnswers(w.app.pairing, w.now, first.source, first.clientMessage, first.exchange, first.session);
    PairingAnswers.StartLeaves(w.app.pairing, w.now, first.source, first.clientMessage, first.exchange, first.session);
  }

  lemma HandshakeFrom(site: Site, w0: World, first: Event, between: seq<Event>, credential: Credential, nonce: Bytes)
    requires Reliable(w0) && Inverts(site.crypto) && Opens(w0, first)
    requires Sealable(site, w0.app.identity.hostId, first.exchange.value.hostMessage)
    requires var w1 := Next(site, w0, first);
             var w2 := Run(site, w1, between);
             && Undisturbed(site, w1, between, first.session)
             && w2.now <= w0.now + 300 * SECOND && credential !in w2.issued
    ensures var w2 := Run(site, Next(site, w0, first), between);
            var shared, started := first.exchange.value.shared, Started(site, w0, first);
            var e := Confirming(site, shared, first.clientMessage, started, credential, nonce);
            var v := Next(site, w2, e);
            && Commits(site, w2, e)
            && DeckCredential(site.crypto, shared, ResponseTo(site, w2, e)) == Some(credential)
            && v.app.identity.credential == v.app.disk.credential == Some(credential)
            && NamesHost(site, w0.app.identity.hostId, started) && started.nonce == started.ciphertext == []
            && NamesHost(site, w0.app.identity.hostId, ResponseTo(site, w2, e))
            && ResponseTo(site, w2, e).sessionId == started.sessionId
  {
    var w1 := Next(site, w0, first);
    var w2 := Run(site, w1, between);
    var x := first.exchange.value;
    var p := Pending(x.shared, first.clientMessage, x.hostMessage, w0.now, first.source);
    SessionOpened(site, w0, first);
    ReliableStep(site, w0, first);
    SessionKept(site, w1, between, first.session, p);
    SameHostId(site, w1, between);
    ConfirmingCommits(site, w2, first.session, p, Started(site, w0, first), credential, nonce);
  }

  /** The confirmation of a session that is still open, computed from the response that opened it. */
  lemma ConfirmingCommits(site: Site, w: World, session: SessionId, p: Pending, started: PairResponse,
                          credential: Credential, nonce: Bytes)
    requires Reliable(w) && Inverts(site.crypto) && Holds(w, session, p) && Live(p.created, w.now)
    requires Sealable(site, w.app.identity.hostId, p.hostMessage) && credential !in w.issued
    requires started.hostMessage == p.hostMessage && started.sessionId == session
    ensures var e := Confirming(site, p.shared, p.clientMessage, started, credential, nonce);
            var v := Next(site, w, e);
            && Commits(site, w, e)
            && DeckCredential(site.crypto, p.shared, ResponseTo(site, w, e)) == Some(credential)
            && v.app.identity.credential == v.app.disk.credential == Some(credential)
            && NamesHost(site, w.app.identity.hostId, ResponseTo(site, w, e))
            && ResponseTo(site, w, e).sessionId == session
  {
    var e := Confirming(site, p.shared, p.clientMessage, started, credential, nonce);
    ConfirmingIsComplete(site, w, session, p, started, credential, nonce);
    CommitsExactly(site, w, e);
    CommitReads(site, w, e);
    CommitEffects(site, w, e);
  }

  lemma ConfirmingIsComplete(site: Site, w: World, session: SessionId, p: Pending, started: PairResponse,
                             credential: Credential, nonce: Bytes)
    requires Holds(w, session, p) && Live(p.created, w.now)
    requires Sealable(site, w.app.identity.hostId, p.hostMessage) && credential !in w.issued
    requires started.hostMessage == p.hostMessage && started.sessionId == session
    ensures Completes(site, w, Confirming(site, p.shared, p.clientMessage, started, credential, nonce))
  {
    SealableIssues(site, w, p, session, credential, nonce);
  }

  lemma SealableIssues(site: Site, w: World, p: Pending, session: SessionId, credential: Credential, nonce: Bytes)
    requires Sealable(site, w.app.identity.hostId, p.hostMessage)
    ensures Issue(site.crypto, p, session, Context(site, w.app.identity.hostId), credential, nonce).Ok?
  {
    var ctx := Context(site, w.app.identity.hostId);
    assert |AadParts(p, session, ctx)| == 5;
    assert |Ascii(HOST_VERSION)| == 5;
  }

  /** A client whose final response was lost repeats the confirmation, within three hundred seconds and before
      the code is replaced, and gets the same response again. */
  lemma RepeatGetsSame(site: Site, hostId: Bytes, code: string, t: nat, before: seq<Event>, e: Event, es: seq<Event>,
                       again: Event)
    requires ValidCode(code)
    requires Commits(site, Run(site, Installed(hostId, code, t), before), e)
    requires forall i :: 0 <= i < |es| ==> !Replaces(es[i])
    requires var w := Run(site, Installed(hostId, code, t), before);
             Run(site, Next(site, w, e), es).now <= w.now + PAIRING_LIFETIME
    requires again.ConfirmPairing? && again.sessionId == e.sessionId && again.confirmation == e.confirmation
    ensures var w := Run(site, Installed(hostId, code, t), before);
            var v := Run(site, Next(site, w, e), es);
            Reply(site, v, again).Paired? && ResponseTo(site, v, again) == ResponseTo(site, w, e)
  {
    LostResponseIsRepeated(site, hostId, code, t, before, e, es, again);
    AlwaysReliable(site, hostId, code, t, before);
    var w := Run(site, Installed(hostId, code, t), before);
    ReliableStep(site, w, e);
    SameHostId(site, Next(site, w, e), es);
  }
}
