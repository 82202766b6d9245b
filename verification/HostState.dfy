/** Invariants of every reachable state of the host, and what they promise a client. */
module HostState {
  import opened Common
  import opened Authentication
  import opened Pairing
  import opened PairingLimits
  import opened Host
  import opened HostRuns

  // ---------------------------------------------------------------- memory and disk

  lemma {:induction false} RetainedMembers(ledger: seq<AcceptedNonce>, at: nat, x: AcceptedNonce)
    ensures x in Retained(ledger, at) <==> x in ledger && at <= x.timestamp + CLOCK_WINDOW
  {
    if ledger != [] {
      RetainedMembers(ledger[1..], at, x);
      assert x in ledger <==> x == ledger[0] || x in ledger[1..];
    }
  }

  lemma {:induction false} RetainedAtZero(ledger: seq<AcceptedNonce>)
    ensures Retained(ledger, 0) == ledger
  {
    if ledger != [] {
      RetainedAtZero(ledger[1..]);
    }
  }

  lemma {:induction false} RetainedTwice(ledger: seq<AcceptedNonce>, p: nat, q: nat)
    requires p <= q
    ensures Retained(Retained(ledger, p), q) == Retained(ledger, q)
  {
    if ledger != [] {
      RetainedTwice(ledger[1..], p, q);
      if SaturatingSub(p, ledger[0].timestamp) <= CLOCK_WINDOW {
        assert Retained(ledger, p)[1..] == Retained(ledger[1..], p);
      }
    }
  }

  /** Memory and disk agree, except that memory may have dropped ledger entries that were
      already out of the window at some past moment. */
  ghost predicate Persisted(w: World) {
    var a := w.app;
    && a.disk == a.identity.(ledger := a.disk.ledger)
    && exists p :: 0 <= p <= Seconds(w.now) && a.identity.ledger == Retained(a.disk.ledger, p)
  }

  lemma SavedIsPersisted(w: World)
    requires w.app.identity == w.app.disk
    ensures Persisted(w)
  {
    RetainedAtZero(w.app.disk.ledger);
    assert w.app.identity.ledger == Retained(w.app.disk.ledger, 0);
  }

  lemma PersistedStep(site: Site, w: World, e: Event)
    requires Persisted(w) && Enabled(w, e)
    ensures Persisted(Step(site, w, e))
  {
    var v := Step(site, w, e);
    var p :| 0 <= p <= Seconds(w.now) && w.app.identity.ledger == Retained(w.app.disk.ledger, p);
    if v.app.identity == w.app.identity && v.app.disk == w.app.disk {
      assert Seconds(w.now) <= Seconds(v.now);
    } else if v.app.identity == v.app.disk {
      SavedIsPersisted(v);
    } else {
      assert e.Spend?;
      RetainedTwice(w.app.disk.ledger, p, Seconds(w.now));
      assert v.app.identity.ledger == Retained(v.app.disk.ledger, Seconds(w.now));
    }
  }

  /** Memory's ledger is what the disk's would be after pruning, so nothing a restart could lose is
      missing from memory, and everything memory lacks is too old to matter. */
  lemma MemoryMatchesDisk(w: World, x: AcceptedNonce)
    requires Persisted(w)
    ensures w.app.identity.(ledger := []) == w.app.disk.(ledger := [])
    ensures x in w.app.identity.ledger ==> x in w.app.disk.ledger
    ensures x in w.app.disk.ledger && x !in w.app.identity.ledger ==> x.timestamp + CLOCK_WINDOW < Seconds(w.now)
  {
    var p :| 0 <= p <= Seconds(w.now) && w.app.identity.ledger == Retained(w.app.disk.ledger, p);
    RetainedMembers(w.app.disk.ledger, p, x);
  }

  // ---------------------------------------------------------------- effects of a step

  /** Steps that leave the pairing code alone, and in memory and on disk touch at most the ledger
      and the recorded client version. */
  predicate Quiet(e: Event) {
    e.Tick? || e.Admit? || e.ReadCredential? || e.Verify? || e.Spend? || e.Dispatch?
  }

  predicate SamePairing(a: Identity, b: Identity) {
    a.hostId == b.hostId && a.credential == b.credential && a.pairingCode == b.pairingCode && a.createdAt == b.createdAt
  }

  lemma QuietEffects(site: Site, w: World, e: Event)
    requires Quiet(e) && Enabled(w, e)
    ensures var v := Step(site, w, e);
            && w.now <= v.now && v.app.pairing == w.app.pairing
            && SamePairing(v.app.identity, w.app.identity)
            && (v.admitted == w.admitted || (v.admitted != {} && PairingAllowed(w.app)))
  {
  }

  /** Some sessions and completions are gone, nothing else changed. */
  ghost predicate Thinned(c: Code, d: Code) {
    && d.code == c.code && d.created == c.created
    && d.pending.Keys <= c.pending.Keys && (forall s :: s in d.pending ==> d.pending[s] == c.pending[s])
    && d.completed.Keys <= c.completed.Keys && (forall s :: s in d.completed ==> d.completed[s] == c.completed[s])
  }

  lemma FinishThins(c: Code, now: int, k: Crypto, session: Bytes, confirmation: Bytes, ctx: CredentialContext,
                    credential: Credential, nonce: Bytes)
    ensures Thinned(c, Finish(c, now, k, session, confirmation, ctx, credential, nonce).0)
  {
  }

  /** A confirmation commits a new credential: to memory, to disk, and to the code. */
  ghost predicate Committed(a: App, b: App, now: nat, session: Bytes, confirmation: Bytes, credential: Credential,
                            r: FinishReply) {
    && r.Paired? && r.result.credential == credential
    && b.identity == a.identity.(credential := Some(credential), pairingCode := None, createdAt := 0, ledger := [])
    && b.disk == b.identity
    && |session| == 16 && session in a.pairing.pending && Live(a.pairing.pending[session].created, now)
    && b.pairing.code == a.pairing.code && b.pairing.pending == map[]
    && b.pairing.completed == map[session := Completed(confirmation, r.result, now)]
    && b.pairing.created == now - PAIRING_LIFETIME - SECOND
  }

  /** A confirmation changes nothing but the failure table and expired or refused sessions; if it
      succeeds, it returns the cached completion. */
  ghost predicate Declined(a: App, b: App, session: Bytes, r: FinishReply) {
    && b == a.(pairing := b.pairing) && Thinned(a.pairing, b.pairing)
    && !r.Panicked?
    && (r.Paired? ==>
          && |session| == 16 && session in a.pairing.completed
          && r.result == a.pairing.completed[session].result)
  }

  /** Every confirmation commits or is declined; the `expect` on commit never fails. */
  lemma ConfirmEffects(site: Site, a: App, now: nat, session: Bytes, confirmation: Bytes,
                       credential: Credential, nonce: Bytes, saved: bool)
    requires Sound(a.pairing, now)
    ensures var (b, r) := FinishPairing(site, a, now, session, confirmation, credential, nonce, saved);
            && Sound(b.pairing, now)
            && if !IsCompleted(a.pairing, session) && r.Paired?
               then Committed(a, b, now, session, confirmation, credential, r)
               else Declined(a, b, session, r)
  {
    var ctx := Context(site, a.identity.hostId);
    var (d, r) := Finish(a.pairing, now, site.crypto, session, confirmation, ctx, credential, nonce);
    FinishThins(a.pairing, now, site.crypto, session, confirmation, ctx, credential, nonce);
    FinishIsSound(a.pairing, now, site.crypto, session, confirmation, ctx, credential, nonce);
    if r.Ok? {
      CompletionFlagIsExact(a.pairing, now, site.crypto, session, confirmation, ctx, credential, nonce);
      CommitIsSound(d, now, session, confirmation, r.value);
    }
  }

  /** What a pair confirmation event does to the service. */
  ghost predicate Confirmed(w: World, v: World, session: Bytes, confirmation: Bytes, credential: Credential) {
    && Sound(v.app.pairing, w.now) && v == w.(app := v.app, issued := v.issued)
    && exists r :: || Committed(w.app, v.app, w.now, session, confirmation, credential, r)
                   || Declined(w.app, v.app, session, r)
  }

  lemma ConfirmStep(site: Site, w: World, e: Event)
    requires e.ConfirmPairing? && Enabled(w, e) && Sound(w.app.pairing, w.now)
    ensures Confirmed(w, Step(site, w, e), e.sessionId, e.confirmation, e.credential)
  {
    ConfirmEffects(site, w.app, w.now, e.sessionId, e.confirmation, e.credential, e.nonce, e.saved);
    var r := FinishPairing(site, w.app, w.now, e.sessionId, e.confirmation, e.credential, e.nonce, e.saved).1;
    var v := Step(site, w, e);
    assert Committed(w.app, v.app, w.now, e.sessionId, e.confirmation, e.credential, r)
           || Declined(w.app, v.app, e.sessionId, r);
  }

  // ---------------------------------------------------------------- the code shown to the user

  /** The live code is the one shown; or the host is paired, shows none, and no session can open:
      the code is used up, or no request has passed the already-paired check. */
  ghost predicate Shown(w: World) {
    var a := w.app;
    && ValidCode(a.pairing.code)
    && (|| a.identity.pairingCode == Some(a.pairing.code)
        || (&& a.identity.credential.Some? && a.identity.pairingCode.None? && a.pairing.pending == map[]
            && (!Live(a.pairing.created, w.now) || w.admitted == {})))
  }

  lemma ShownConfirm(w: World, v: World, session: Bytes, confirmation: Bytes, credential: Credential)
    requires Shown(w) && Confirmed(w, v, session, confirmation, credential)
    ensures Shown(v)
  {
    assert w.app.pairing.pending == map[] && Thinned(w.app.pairing, v.app.pairing) ==> v.app.pairing.pending == map[];
  }

  lemma ShownStep(site: Site, w: World, e: Event)
    requires Shown(w) && Persisted(w) && Sound(w.app.pairing, w.now) && Enabled(w, e)
    ensures Shown(Step(site, w, e))
  {
    if Quiet(e) {
      QuietEffects(site, w, e);
    } else if e.ConfirmPairing? {
      ConfirmStep(site, w, e);
      ShownConfirm(w, Step(site, w, e), e.sessionId, e.confirmation, e.credential);
    } else if e.OpenPairing? {
      ShownOpen(w, e);
    } else {
      ShownReplaced(site, w, e);
    }
  }

  lemma ShownOpen(w: World, e: Event)
    requires Shown(w) && e.OpenPairing? && Enabled(w, e)
    ensures Shown(w.(app := OpenSession(w.app, w.now, e.source, e.clientMessage, e.exchange, e.session).0,
                     admitted := w.admitted - {e.id}))
  {
  }

  lemma ShownReplaced(site: Site, w: World, e: Event)
    requires Shown(w) && Persisted(w) && Enabled(w, e) && (e.Generate? || e.Restart?)
    ensures Shown(Step(site, w, e))
  {
  }

  // ---------------------------------------------------------------- the completion cache

  /** A cached completion carries the credential that is current. */
  ghost predicate CacheIsCurrent(w: World) {
    forall s :: s in w.app.pairing.completed ==>
      w.app.identity.credential == Some(w.app.pairing.completed[s].result.credential)
  }

  lemma CacheConfirm(w: World, v: World, session: Bytes, confirmation: Bytes, credential: Credential)
    requires CacheIsCurrent(w) && Confirmed(w, v, session, confirmation, credential)
    ensures CacheIsCurrent(v)
  {
  }

  lemma StartThinsCompletions(c: Code, now: int, source: Source, clientMessage: Bytes, exchange: Option<Exchange>,
                              session: SessionId)
    ensures var d := Start(c, now, source, clientMessage, exchange, session).0;
            forall s :: s in d.completed ==> s in c.completed && d.completed[s] == c.completed[s]
  {
  }

  lemma CacheStep(site: Site, w: World, e: Event)
    requires CacheIsCurrent(w) && Sound(w.app.pairing, w.now) && Enabled(w, e)
    ensures CacheIsCurrent(Step(site, w, e))
  {
    if Quiet(e) {
      QuietEffects(site, w, e);
    } else if e.ConfirmPairing? {
      ConfirmStep(site, w, e);
      CacheConfirm(w, Step(site, w, e), e.sessionId, e.confirmation, e.credential);
    } else if e.OpenPairing? {
      StartThinsCompletions(w.app.pairing, w.now, e.source, e.clientMessage, e.exchange, e.session);
    }
  }

  lemma SoundStep(site: Site, w: World, e: Event)
    requires Sound(w.app.pairing, w.now) && Enabled(w, e)
    ensures Sound(Step(site, w, e).app.pairing, Step(site, w, e).now)
  {
    if Quiet(e) {
      QuietEffects(site, w, e);
      SoundLater(w.app.pairing, w.now, Step(site, w, e).now);
    } else if e.ConfirmPairing? {
      ConfirmStep(site, w, e);
    } else if e.OpenPairing? {
      StartIsSound(w.app.pairing, w.now, e.source, e.clientMessage, e.exchange, e.session);
    } else {
      var c := Step(site, w, e).app.pairing;
      if c != w.app.pairing {
        EmptyIsSound(c, w.now);
      }
    }
  }

  // ---------------------------------------------------------------- time

  /** While a code is shown, it cannot open sessions past 300 whole seconds after its recorded
      creation, and every open session was opened in time. */
  ghost predicate Timely(w: World) {
    var i := w.app.identity;
    i.pairingCode.Some? ==>
      && i.createdAt <= Seconds(w.now)
      && (Live(w.app.pairing.created, w.now) ==> w.app.pairing.created < (i.createdAt + 1) * SECOND)
      && (forall s :: s in w.app.pairing.pending ==> w.app.pairing.pending[s].created < (i.createdAt + 301) * SECOND)
  }

  lemma TimelyConfirm(w: World, v: World, session: Bytes, confirmation: Bytes, credential: Credential)
    requires Timely(w) && Confirmed(w, v, session, confirmation, credential)
    ensures Timely(v)
  {
  }

  lemma TimelyStep(site: Site, w: World, e: Event)
    requires Timely(w) && Shown(w) && Persisted(w) && Sound(w.app.pairing, w.now) && Enabled(w, e)
    ensures Timely(Step(site, w, e))
  {
    if Quiet(e) {
      QuietEffects(site, w, e);
    } else if e.ConfirmPairing? {
      ConfirmStep(site, w, e);
      TimelyConfirm(w, Step(site, w, e), e.sessionId, e.confirmation, e.credential);
    } else if e.Restart? {
      if w.app.disk.pairingCode.Some? { RestartKeepsAge(w, e.code); }
    } else if e.OpenPairing? {
      TimelyStart(w, e);
    }
  }

  lemma TimelyStart(w: World, e: Event)
    requires Timely(w) && e.OpenPairing?
    ensures Timely(w.(app := OpenSession(w.app, w.now, e.source, e.clientMessage, e.exchange, e.session).0,
                      admitted := w.admitted - {e.id}))
  {
  }

  /** A restart recomputes the age from the recorded creation, so restarts never add up. */
  lemma RestartKeepsAge(w: World, code: string)
    requires Persisted(w) && w.app.disk.pairingCode.Some? && w.app.disk.createdAt <= Seconds(w.now)
    requires ValidCode(w.app.disk.pairingCode.value)
    ensures var c := Restarted(w, code).app.pairing;
            Live(c.created, w.now) ==> c.created < (w.app.disk.createdAt + 1) * SECOND
  {
  }

  // ---------------------------------------------------------------- all together

  ghost predicate Reliable(w: World) {
    && Persisted(w) && Shown(w) && Timely(w)
    && Sound(w.app.pairing, w.now) && CacheIsCurrent(w)
  }

  lemma InstalledIsReliable(hostId: Bytes, code: string, now: nat)
    requires ValidCode(code)
    ensures Reliable(Installed(hostId, code, now))
  {
    var w := Installed(hostId, code, now);
    SavedIsPersisted(w);
    EmptyIsSound(w.app.pairing, now);
  }

  lemma ReliableStep(site: Site, w: World, e: Event)
    requires Reliable(w)
    ensures Reliable(Next(site, w, e))
  {
    if Enabled(w, e) {
      PersistedStep(site, w, e);
      ShownStep(site, w, e);
      TimelyStep(site, w, e);
      SoundStep(site, w, e);
      CacheStep(site, w, e);
    }
  }

  /** The invariants hold in every state of every run of a fresh installation. */
  lemma {:induction false} AlwaysReliable(site: Site, hostId: Bytes, code: string, t: nat, es: seq<Event>)
    requires ValidCode(code)
    ensures Reliable(Run(site, Installed(hostId, code, t), es))
  {
    if es == [] {
      InstalledIsReliable(hostId, code, t);
    } else {
      AlwaysReliable(site, hostId, code, t, es[..|es| - 1]);
      ReliableStep(site, Run(site, Installed(hostId, code, t), es[..|es| - 1]), es[|es| - 1]);
    }
  }

  /** In every run, memory and disk agree on all but the ledger, and memory's ledger is the disk's in the
      same order, pruned at some past moment. So pruned now, the two ledgers are the same. */
  lemma MemoryIsPrunedDisk(site: Site, hostId: Bytes, code: string, t: nat, es: seq<Event>)
    requires ValidCode(code)
    ensures var w := Run(site, Installed(hostId, code, t), es);
            && w.app.identity.(ledger := []) == w.app.disk.(ledger := [])
            && (exists p :: 0 <= p <= Seconds(w.now) && w.app.identity.ledger == Retained(w.app.disk.ledger, p))
            && Retained(w.app.identity.ledger, Seconds(w.now)) == Retained(w.app.disk.ledger, Seconds(w.now))
  {
    AlwaysReliable(site, hostId, code, t, es);
    var w := Run(site, Installed(hostId, code, t), es);
    var p :| 0 <= p <= Seconds(w.now) && w.app.identity.ledger == Retained(w.app.disk.ledger, p);
    RetainedTwice(w.app.disk.ledger, p, Seconds(w.now));
  }
}
