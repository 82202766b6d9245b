/** What the host promises in every run of a fresh installation, whatever requests arrive, whichever
    saves fail and however often it restarts. */
module HostPromises {
  import opened Common
  import opened Pairing
  import opened PairingLimits
  import opened Host
  import opened HostRuns
  import opened HostState

  /** The answer a confirmation gets. */
  function Reply(site: Site, w: World, e: Event): FinishReply
    requires e.ConfirmPairing?
  {
    FinishPairing(site, w.app, w.now, e.sessionId, e.confirmation, e.credential, e.nonce, e.saved).1
  }

  /** A success response always carries the credential that memory and disk hold at that moment,
      and the service never panics. */
  lemma PairedMeansStored(site: Site, hostId: Bytes, code: string, t: nat, es: seq<Event>, e: Event)
    requires ValidCode(code) && e.ConfirmPairing?
    ensures var w := Run(site, Installed(hostId, code, t), es);
            Enabled(w, e) ==>
              && Reply(site, w, e) != Panicked
              && (Reply(site, w, e).Paired? ==>
                    var v := Next(site, w, e);
                    v.app.identity.credential == v.app.disk.credential == Some(Reply(site, w, e).result.credential))
  {
    AlwaysReliable(site, hostId, code, t, es);
    var w := Run(site, Installed(hostId, code, t), es);
    if Enabled(w, e) {
      ReplyIsCurrent(site, w, e);
    }
  }

  lemma ReplyIsCurrent(site: Site, w: World, e: Event)
    requires Reliable(w) && e.ConfirmPairing? && Enabled(w, e)
    ensures Reply(site, w, e) != Panicked
    ensures Reply(site, w, e).Paired? ==>
              var v := Next(site, w, e);
              v.app.identity.credential == v.app.disk.credential == Some(Reply(site, w, e).result.credential)
  {
    ConfirmEffects(site, w.app, w.now, e.sessionId, e.confirmation, e.credential, e.nonce, e.saved);
  }

  /** Every open session belongs to the code shown to the user, even when the already-paired check
      and the opening of the session are separated by a commit or a new code. */
  lemma SessionsBelongToShownCode(site: Site, hostId: Bytes, code: string, t: nat, es: seq<Event>)
    requires ValidCode(code)
    ensures var w := Run(site, Installed(hostId, code, t), es);
            w.app.pairing.pending != map[] ==>
              && w.app.identity.pairingCode == w.app.disk.pairingCode == Some(w.app.pairing.code)
              && PairingStateOf(w.app, w.now).code == Some(w.app.pairing.code)
  {
    AlwaysReliable(site, hostId, code, t, es);
  }

  /** Sessions open at most 300 seconds after the recorded creation of the code, and credentials are
      issued at most 600 seconds after it, however many restarts come between. */
  lemma CodesExpire(site: Site, hostId: Bytes, code: string, t: nat, es: seq<Event>, e: Event)
    requires ValidCode(code)
    ensures var w := Run(site, Installed(hostId, code, t), es);
            var i := w.app.identity;
            && (Opens(w, e) ==> i.pairingCode.Some? && Seconds(w.now) <= i.createdAt + 300)
            && (Commits(site, w, e) ==> i.pairingCode.Some? && Seconds(w.now) <= i.createdAt + 600)
  {
    AlwaysReliable(site, hostId, code, t, es);
    var w := Run(site, Installed(hostId, code, t), es);
    if Opens(w, e) {
      OpensInTime(w, e);
    }
    if Commits(site, w, e) {
      ConfirmEffects(site, w.app, w.now, e.sessionId, e.confirmation, e.credential, e.nonce, e.saved);
    }
  }

  /** The event opens a session. */
  predicate Opens(w: World, e: Event) {
    e.OpenPairing? && Enabled(w, e) && OpenSession(w.app, w.now, e.source, e.clientMessage, e.exchange, e.session).1.Ok?
  }

  /** The event commits a new credential. */
  predicate Commits(site: Site, w: World, e: Event) {
    e.ConfirmPairing? && Enabled(w, e) && !IsCompleted(w.app.pairing, e.sessionId) && Reply(site, w, e).Paired?
  }

  /** In every run, a confirmation commits exactly when its session is open and no older than the lifetime,
      the confirmation is the right one, the credential can be encrypted, and the identity is saved. */
  lemma CommitsIff(site: Site, hostId: Bytes, code: string, t: nat, es: seq<Event>, e: Event)
    requires ValidCode(code)
    ensures var w := Run(site, Installed(hostId, code, t), es);
            Commits(site, w, e) <==> Completes(site, w, e)
  {
    AlwaysReliable(site, hostId, code, t, es);
    CommitsExactly(site, Run(site, Installed(hostId, code, t), es), e);
  }

  ghost predicate Completes(site: Site, w: World, e: Event) {
    && e.ConfirmPairing? && Enabled(w, e) && e.saved && |e.sessionId| == 16 && e.sessionId in w.app.pairing.pending
    && var p := w.app.pairing.pending[e.sessionId];
       && Live(p.created, w.now) && e.confirmation == Confirmation(site.crypto, e.sessionId, p)
       && Issue(site.crypto, p, e.sessionId, Context(site, w.app.identity.hostId), e.credential, e.nonce).Ok?
  }

  lemma CommitsExactly(site: Site, w: World, e: Event)
    requires Sound(w.app.pairing, w.now)
    ensures Commits(site, w, e) <==> Completes(site, w, e)
  {
    if e.ConfirmPairing? && Enabled(w, e) {
      var c, ctx := w.app.pairing, Context(site, w.app.identity.hostId);
      FinishSucceedsIff(c, w.now, site.crypto, e.sessionId, e.confirmation, ctx, e.credential, e.nonce);
      if Finish(c, w.now, site.crypto, e.sessionId, e.confirmation, ctx, e.credential, e.nonce).1.Ok? {
        ConfirmEffects(site, w.app, w.now, e.sessionId, e.confirmation, e.credential, e.nonce, e.saved);
      }
    }
  }

  /** Everything but the save is in order. */
  ghost predicate Prepared(site: Site, w: World, e: Event)
    requires e.ConfirmPairing?
  {
    Completes(site, w, ConfirmPairing(e.sessionId, e.confirmation, e.credential, e.nonce, true))
  }

  /** The confirmation repeats the one that completed, within its lifetime. */
  predicate RepeatsCompleted(w: World, e: Event)
    requires e.ConfirmPairing?
  {
    && |e.sessionId| == 16 && e.sessionId in w.app.pairing.completed
    && w.now - w.app.pairing.completed[e.sessionId].created <= 300 * SECOND
    && w.app.pairing.completed[e.sessionId].confirmation == e.confirmation
  }

  /** In every run, what a confirmation is answered: paired exactly if it commits or repeats a completed
      one; a failed save exactly if only that stands in the way; and otherwise refused. */
  lemma RepliesExactly(site: Site, hostId: Bytes, code: string, t: nat, es: seq<Event>, e: Event)
    requires ValidCode(code) && e.ConfirmPairing?
    ensures var w := Run(site, Installed(hostId, code, t), es);
            Enabled(w, e) ==>
              && (Reply(site, w, e).Paired? <==> Completes(site, w, e) || RepeatsCompleted(w, e))
              && (Reply(site, w, e) == SaveFailed <==> Prepared(site, w, e) && !e.saved)
              && (RepeatsCompleted(w, e) ==>
                    Reply(site, w, e) == Paired(w.app.pairing.completed[e.sessionId].result))
  {
    AlwaysReliable(site, hostId, code, t, es);
    var w := Run(site, Installed(hostId, code, t), es);
    if Enabled(w, e) {
      RepliesFor(site, w, e);
    }
  }

  lemma RepliesFor(site: Site, w: World, e: Event)
    requires Sound(w.app.pairing, w.now) && e.ConfirmPairing? && Enabled(w, e)
    ensures Reply(site, w, e).Paired? <==> Completes(site, w, e) || RepeatsCompleted(w, e)
    ensures Reply(site, w, e) == SaveFailed <==> Prepared(site, w, e) && !e.saved
    ensures RepeatsCompleted(w, e) ==> Reply(site, w, e) == Paired(w.app.pairing.completed[e.sessionId].result)
  {
    var c, ctx := w.app.pairing, Context(site, w.app.identity.hostId);
    FinishSucceedsIff(c, w.now, site.crypto, e.sessionId, e.confirmation, ctx, e.credential, e.nonce);
    if IsCompleted(c, e.sessionId) {
      CompletedFinishes(c, w.now, site.crypto, e.sessionId, e.confirmation, ctx, e.credential, e.nonce);
    }
    CommitsExactly(site, w, e);
    ConfirmEffects(site, w.app, w.now, e.sessionId, e.confirmation, e.credential, e.nonce, e.saved);
    ReplyFrom(site, w, e);
  }

  /** The reply in terms of what `finish` answered. */
  lemma ReplyFrom(site: Site, w: World, e: Event)
    requires e.ConfirmPairing?
    ensures var ctx := Context(site, w.app.identity.hostId);
            var c, k := w.app.pairing, site.crypto;
            var r := Finish(c, w.now, k, e.sessionId, e.confirmation, ctx, e.credential, e.nonce).1;
            var cached := IsCompleted(w.app.pairing, e.sessionId);
            && (r.Err? ==> Reply(site, w, e) == PairRefused(r.error))
            && (r.Ok? && cached ==> Reply(site, w, e) == Paired(r.value))
            && (r.Ok? && !cached && !e.saved ==> Reply(site, w, e) == SaveFailed)
            && (r.Ok? && !cached && e.saved ==> Reply(site, w, e) in {Paired(r.value), Panicked})
  {
  }

  lemma CompletedFinishes(c: Code, now: Instant, k: Crypto, session: Bytes, confirmation: Bytes, ctx: CredentialContext,
                          credential: Credential, nonce: Bytes)
    requires Sound(c, now) && IsCompleted(c, session)
    ensures var r := Finish(c, now, k, session, confirmation, ctx, credential, nonce).1;
            var done := c.completed[session];
            if now - done.created <= 300 * SECOND && done.confirmation == confirmation then r == Ok(done.result)
            else r == Err(Invalid)
  {
    assert c.pending == map[];
    assert Pruned(c, now).pending == map[];
  }

  lemma FinishSucceedsIff(c: Code, now: Instant, k: Crypto, session: Bytes, confirmation: Bytes, ctx: CredentialContext,
                          credential: Credential, nonce: Bytes)
    requires Sound(c, now)
    ensures !IsCompleted(c, session) && Finish(c, now, k, session, confirmation, ctx, credential, nonce).1.Ok?
       <==> && |session| == 16 && session in c.pending && Live(c.pending[session].created, now)
            && confirmation == Confirmation(k, session, c.pending[session])
            && Issue(k, c.pending[session], session, ctx, credential, nonce).Ok?
  {
    if |session| == 16 && session in c.pending {
      assert c.completed == map[];
      assert Pruned(c, now).completed == map[];
    }
  }

  lemma OpensInTime(w: World, e: Event)
    requires Reliable(w) && Opens(w, e)
    ensures w.app.identity.pairingCode.Some? && Seconds(w.now) <= w.app.identity.createdAt + 300
  {
    assert Live(w.app.pairing.created, w.now);
    assert w.admitted != {};
  }

  /** Under one code, an address earns at most 12 failed confirmations and an unknown source at most
      132, so the 8-bit counters never saturate; an address holds at most 8 open sessions, all sources
      together at most 128; and at most 383 sources are ever tracked. */
  lemma LimitsHold(site: Site, hostId: Bytes, code: string, t: nat, es: seq<Event>, source: Source)
    requires ValidCode(code)
    ensures var c := Run(site, Installed(hostId, code, t), es).app.pairing;
            && c.FailureCount(source) <= (if source.Some? then 12 else 132)
            && |c.Open(source)| <= (if source.Some? then 8 else 128)
            && |c.pending| <= 128 && |c.failures| <= 383
  {
    AlwaysReliable(site, hostId, code, t, es);
    var c := Run(site, Installed(hostId, code, t), es).app.pairing;
    assert SourceWithinBudget(c, source);
    SubsetSize(c.Open(source), c.pending.Keys);
    SubsetSize(c.failures.Keys, Chargeable(c));
  }

  /** The service always starts again from what it persisted, with the same identity, showing the same code. */
  lemma RestartsSucceed(site: Site, hostId: Bytes, code: string, t: nat, es: seq<Event>, generated: string)
    requires ValidCode(code) && ValidCode(generated)
    ensures var w := Run(site, Installed(hostId, code, t), es);
            var booted := Boot(w.app.disk, w.now, generated);
            && booted.Some? && SamePairing(booted.value.identity, w.app.identity)
            && PairingStateOf(booted.value, w.now).code == PairingStateOf(w.app, w.now).code
  {
    AlwaysReliable(site, hostId, code, t, es);
  }

  /** The credential in use, in memory and on disk, changes only when a pairing commits, and then to
      the one that pairing issued: not by a failed save, a new code, a restart or a reported version. */
  lemma CredentialChangesOnlyByPairing(site: Site, hostId: Bytes, code: string, t: nat, es: seq<Event>, e: Event)
    requires ValidCode(code)
    ensures var w := Run(site, Installed(hostId, code, t), es);
            var v := Next(site, w, e);
            && v.app.identity.credential == v.app.disk.credential
            && v.app.identity.hostId == v.app.disk.hostId == w.app.identity.hostId
            && v.app.identity.credential
               == if Commits(site, w, e) then Some(e.credential) else w.app.identity.credential
  {
    AlwaysReliable(site, hostId, code, t, es);
    CredentialStep(site, Run(site, Installed(hostId, code, t), es), e);
  }

  lemma CredentialStep(site: Site, w: World, e: Event)
    requires Reliable(w)
    ensures var v := Next(site, w, e);
            && v.app.identity.credential == v.app.disk.credential
            && v.app.identity.hostId == v.app.disk.hostId == w.app.identity.hostId
            && v.app.identity.credential
               == if Commits(site, w, e) then Some(e.credential) else w.app.identity.credential
  {
    ReliableStep(site, w, e);
    if Enabled(w, e) {
      if Quiet(e) {
        QuietEffects(site, w, e);
      } else if e.ConfirmPairing? {
        ConfirmEffects(site, w.app, w.now, e.sessionId, e.confirmation, e.credential, e.nonce, e.saved);
      }
    }
  }

  /** A recorded client version, if any, is a strict version. */
  predicate Strict(version: Option<string>) {
    version.Some? ==> Versions.HostParse(version.value).Some?
  }

  predicate StrictEverywhere(a: App) {
    Strict(a.identity.lastClientVersion) && Strict(a.disk.lastClientVersion) && Strict(a.latest)
  }

  lemma RecordKeepsStrict(a: App, version: string, saved: bool)
    requires StrictEverywhere(a)
    ensures StrictEverywhere(RecordVersion(a, version, saved))
  {
  }

  /** Only dispatching a request records a version. */
  lemma OtherVersions(site: Site, w: World, e: Event)
    requires Enabled(w, e) && !e.Dispatch?
    ensures var a, b := w.app, Step(site, w, e).app;
            && b.identity.lastClientVersion in {a.identity.lastClientVersion, a.disk.lastClientVersion}
            && b.disk.lastClientVersion in {a.identity.lastClientVersion, a.disk.lastClientVersion}
            && b.latest in {a.latest, a.disk.lastClientVersion}
  {
  }

  lemma StrictStep(site: Site, w: World, e: Event)
    requires StrictEverywhere(w.app)
    ensures StrictEverywhere(Next(site, w, e).app)
  {
    if Enabled(w, e) {
      if e.Dispatch? {
        var payload := w.inFlight[e.id].payload;
        if payload.Some? {
          RecordKeepsStrict(w.app, payload.value, e.saved);
        }
      } else {
        OtherVersions(site, w, e);
      }
    }
  }

  /** Only strict versions are ever recorded, in memory and on disk. */
  lemma {:induction false} RecordedVersionsAreStrict(site: Site, hostId: Bytes, code: string, t: nat, es: seq<Event>)
    requires ValidCode(code)
    ensures StrictEverywhere(Run(site, Installed(hostId, code, t), es).app)
  {
    if es != [] {
      RecordedVersionsAreStrict(site, hostId, code, t, es[..|es| - 1]);
      StrictStep(site, Run(site, Installed(hostId, code, t), es[..|es| - 1]), es[|es| - 1]);
    }
  }

  // ---------------------------------------------------------------- one code, one credential

  /** The event replaces the pairing code object. */
  predicate Replaces(e: Event) {
    e.Generate? || e.Restart?
  }

  lemma {:induction false} RunIsReliable(site: Site, w: World, es: seq<Event>)
    requires Reliable(w)
    ensures Reliable(Run(site, w, es)) && w.now <= Run(site, w, es).now
  {
    if es != [] {
      var k := |es| - 1;
      RunIsReliable(site, w, es[..k]);
      ReliableStep(site, Run(site, w, es[..k]), es[k]);
      ClockAdvances(site, Run(site, w, es[..k]), es[k]);
    }
  }

  lemma ClockAdvances(site: Site, w: World, e: Event)
    ensures w.now <= Next(site, w, e).now
  {
  }

  lemma SpentNeverCommits(site: Site, w: World, e: Event)
    requires Reliable(w) && Spent(w.app.pairing, w.now)
    ensures !Commits(site, w, e)
  {
    if e.ConfirmPairing? {
      ConfirmEffects(site, w.app, w.now, e.sessionId, e.confirmation, e.credential, e.nonce, e.saved);
    }
  }

  lemma SpentStep(site: Site, w: World, e: Event)
    requires Reliable(w) && Spent(w.app.pairing, w.now) && !Replaces(e)
    ensures Spent(Next(site, w, e).app.pairing, Next(site, w, e).now)
  {
    if Enabled(w, e) {
      if Quiet(e) {
        QuietEffects(site, w, e);
      } else if e.ConfirmPairing? {
        ConfirmEffects(site, w.app, w.now, e.sessionId, e.confirmation, e.credential, e.nonce, e.saved);
        SpentConfirm(w, e.sessionId, Reply(site, w, e), Step(site, w, e).app);
      }
    }
  }

  lemma SpentConfirm(w: World, session: Bytes, r: FinishReply, b: App)
    requires Spent(w.app.pairing, w.now) && Declined(w.app, b, session, r)
    ensures Spent(b.pairing, w.now)
  {
    assert b.pairing.pending.Keys == {};
  }

  lemma {:induction false} SpentForGood(site: Site, w: World, es: seq<Event>)
    requires Reliable(w) && Spent(w.app.pairing, w.now)
    requires forall i :: 0 <= i < |es| ==> !Replaces(es[i])
    ensures Reliable(Run(site, w, es)) && Spent(Run(site, w, es).app.pairing, Run(site, w, es).now)
  {
    if es != [] {
      var n := |es| - 1;
      SpentForGood(site, w, es[..n]);
      ReliableStep(site, Run(site, w, es[..n]), es[n]);
      SpentStep(site, Run(site, w, es[..n]), es[n]);
    }
  }

  /** What a commit leaves behind. */
  lemma AfterCommit(site: Site, w: World, e: Event)
    requires Reliable(w) && Commits(site, w, e)
    ensures Reliable(Next(site, w, e)) && Spent(Next(site, w, e).app.pairing, w.now) && Next(site, w, e).now == w.now
    ensures |e.sessionId| == 16
    ensures Next(site, w, e).app.pairing.completed
         == map[e.sessionId := Completed(e.confirmation, Reply(site, w, e).result, w.now)]
  {
    ReliableStep(site, w, e);
    CommitEffects(site, w, e);
  }

  lemma CommitEffects(site: Site, w: World, e: Event)
    requires Sound(w.app.pairing, w.now) && Commits(site, w, e)
    ensures Committed(w.app, Next(site, w, e).app, w.now, e.sessionId, e.confirmation, e.credential, Reply(site, w, e))
    ensures Next(site, w, e).now == w.now
  {
    ConfirmEffects(site, w.app, w.now, e.sessionId, e.confirmation, e.credential, e.nonce, e.saved);
    NextConfirms(site, w, e);
  }

  lemma NextConfirms(site: Site, w: World, e: Event)
    requires e.ConfirmPairing? && Enabled(w, e)
    ensures var v := Next(site, w, e);
            && v == w.(app := v.app, issued := v.issued)
            && v.app == FinishPairing(site, w.app, w.now, e.sessionId, e.confirmation, e.credential, e.nonce, e.saved).0
  {
  }

  /** One pairing code commits at most one credential: after a commit, no confirmation commits again
      until the code is replaced or the service restarts. */
  lemma OneCredentialPerCode(site: Site, hostId: Bytes, code: string, t: nat, before: seq<Event>, e: Event,
                             es: seq<Event>, again: Event)
    requires ValidCode(code)
    requires Commits(site, Run(site, Installed(hostId, code, t), before), e)
    requires forall i :: 0 <= i < |es| ==> !Replaces(es[i])
    ensures !Commits(site, Run(site, Next(site, Run(site, Installed(hostId, code, t), before), e), es), again)
  {
    AlwaysReliable(site, hostId, code, t, before);
    NoSecondCommit(site, Run(site, Installed(hostId, code, t), before), e, es, again);
  }

  lemma NoSecondCommit(site: Site, w: World, e: Event, es: seq<Event>, again: Event)
    requires Reliable(w) && Commits(site, w, e)
    requires forall i :: 0 <= i < |es| ==> !Replaces(es[i])
    ensures !Commits(site, Run(site, Next(site, w, e), es), again)
  {
    AfterCommit(site, w, e);
    var v := Next(site, w, e);
    SpentForGood(site, v, es);
    SpentNeverCommits(site, Run(site, v, es), again);
  }

  // ---------------------------------------------------------------- lost responses

  lemma CacheKept(site: Site, w: World, e: Event, session: SessionId, c: Completed)
    requires Reliable(w) && !Replaces(e)
    requires session in w.app.pairing.completed && w.app.pairing.completed[session] == c
    requires Live(c.created, w.now)
    ensures session in Next(site, w, e).app.pairing.completed && Next(site, w, e).app.pairing.completed[session] == c
  {
    if Enabled(w, e) {
      if Quiet(e) {
        QuietEffects(site, w, e);
      } else if e.ConfirmPairing? {
        CacheSurvivesFinish(site, w, e, session);
      }
    }
  }

  lemma CacheSurvivesFinish(site: Site, w: World, e: Event, session: SessionId)
    requires Reliable(w) && e.ConfirmPairing? && Enabled(w, e)
    requires session in w.app.pairing.completed && Live(w.app.pairing.completed[session].created, w.now)
    ensures session in Next(site, w, e).app.pairing.completed
    ensures Next(site, w, e).app.pairing.completed[session] == w.app.pairing.completed[session]
  {
    var ctx := Context(site, w.app.identity.hostId);
    CompletionSurvives(w.app.pairing, w.now, site.crypto, e.sessionId, e.confirmation, ctx, e.credential, e.nonce,
                       session);
  }

  lemma CompletionSurvives(c: Code, now: int, k: Crypto, id: Bytes, confirmation: Bytes, ctx: CredentialContext,
                           credential: Credential, nonce: Bytes, session: SessionId)
    requires c.pending == map[] && session in c.completed && Live(c.completed[session].created, now)
    ensures var (d, r) := Finish(c, now, k, id, confirmation, ctx, credential, nonce);
            session in d.completed && d.completed[session] == c.completed[session] && (r.Ok? ==> IsCompleted(c, id))
  {
    assert Pruned(c, now).pending == map[];
  }

  lemma {:induction false} CacheKeptThroughout(site: Site, w: World, es: seq<Event>, session: SessionId, c: Completed)
    requires Reliable(w) && forall i :: 0 <= i < |es| ==> !Replaces(es[i])
    requires session in w.app.pairing.completed && w.app.pairing.completed[session] == c
    requires Live(c.created, Run(site, w, es).now)
    ensures session in Run(site, w, es).app.pairing.completed && Run(site, w, es).app.pairing.completed[session] == c
  {
    if es != [] {
      var n := |es| - 1;
      ClockAdvances(site, Run(site, w, es[..n]), es[n]);
      CacheKeptThroughout(site, w, es[..n], session, c);
      RunIsReliable(site, w, es[..n]);
      CacheKept(site, Run(site, w, es[..n]), es[n], session, c);
    }
  }

  /** A client that lost the final response can repeat the same confirmation: for 300 seconds, and
      until the code is replaced or the service restarts, whatever else happens, the answer is the
      identical result and the credential is not rotated again. */
  lemma LostResponseIsRepeated(site: Site, hostId: Bytes, code: string, t: nat, before: seq<Event>, e: Event,
                               es: seq<Event>, again: Event)
    requires ValidCode(code)
    requires Commits(site, Run(site, Installed(hostId, code, t), before), e)
    requires forall i :: 0 <= i < |es| ==> !Replaces(es[i])
    requires var w := Run(site, Installed(hostId, code, t), before);
             Run(site, Next(site, w, e), es).now <= w.now + PAIRING_LIFETIME
    requires again.ConfirmPairing? && again.sessionId == e.sessionId && again.confirmation == e.confirmation
    ensures var w := Run(site, Installed(hostId, code, t), before);
            var v := Run(site, Next(site, w, e), es);
            && Reply(site, v, again) == Reply(site, w, e)
            && Next(site, v, again).app.identity == v.app.identity && Next(site, v, again).app.disk == v.app.disk
  {
    AlwaysReliable(site, hostId, code, t, before);
    RepeatAfterCommit(site, Run(site, Installed(hostId, code, t), before), e, es, again);
  }

  lemma RepeatAfterCommit(site: Site, w: World, e: Event, es: seq<Event>, again: Event)
    requires Reliable(w) && Commits(site, w, e)
    requires forall i :: 0 <= i < |es| ==> !Replaces(es[i])
    requires Run(site, Next(site, w, e), es).now <= w.now + PAIRING_LIFETIME
    requires again.ConfirmPairing? && again.sessionId == e.sessionId && again.confirmation == e.confirmation
    ensures var v := Run(site, Next(site, w, e), es);
            && Reply(site, v, again) == Reply(site, w, e)
            && Next(site, v, again).app.identity == v.app.identity && Next(site, v, again).app.disk == v.app.disk
  {
    AfterCommit(site, w, e);
    var c := Completed(e.confirmation, Reply(site, w, e).result, w.now);
    CacheKeptThroughout(site, Next(site, w, e), es, e.sessionId, c);
    RepeatAnswered(site, Run(site, Next(site, w, e), es), again, c);
  }

  lemma RepeatAnswered(site: Site, v: World, again: Event, c: Completed)
    requires again.ConfirmPairing? && |again.sessionId| == 16 && again.sessionId in v.app.pairing.completed
    requires v.app.pairing.completed[again.sessionId] == c && c.confirmation == again.confirmation
             && Live(c.created, v.now)
    ensures Reply(site, v, again) == Paired(c.result)
    ensures Next(site, v, again).app.identity == v.app.identity && Next(site, v, again).app.disk == v.app.disk
  {
    assert again.sessionId in Pruned(v.app.pairing, v.now).completed;
  }
}
