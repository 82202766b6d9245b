/** What every operation on a pairing code keeps: the completion cache excludes open
    sessions, and failures and sessions stay within fixed budgets. */
module PairingLimits {
  import opened Common
  import opened Pairing

  /** Four recorded failures still allow a start, and eight sessions may be open at once. */
  const MAX_FAILURES_PER_ADDRESS: nat := 12
  const MAX_FAILURES_UNKNOWN_SOURCE: nat := 132
  const MAX_CHARGEABLE_SOURCES: nat := 383

  // ---------------------------------------------------------------- invariants

  /** The failures a source has, or can still earn with the sessions it holds. */
  ghost function Exposure(c: Code, source: Source): nat {
    c.FailureCount(source) + |c.Open(source)|
  }

  /** Sources already in the failure table, or able to enter it. */
  ghost function Chargeable(c: Code): set<Source> {
    c.failures.Keys + c.PendingSources()
  }

  ghost predicate SourceWithinBudget(c: Code, source: Source) {
    if source.Some? then
      |c.Open(source)| <= MAX_PENDING_SESSIONS_PER_SOURCE && Exposure(c, source) <= MAX_FAILURES_PER_ADDRESS
    else
      Exposure(c, source) <= MAX_FAILURES_UNKNOWN_SOURCE
  }

  ghost predicate WithinBudget(c: Code) {
    && |c.pending| <= MAX_PENDING_SESSIONS
    && (forall source :: SourceWithinBudget(c, source))
    && |Chargeable(c)| <= MAX_CHARGEABLE_SOURCES
  }

  /** A cached completion is alone, no session is open beside it, and the code is expired. */
  ghost predicate CompletionExcludesSessions(c: Code, now: Instant) {
    c.completed != map[] ==>
      && (exists s :: s in c.completed && c.completed.Keys == {s})
      && c.pending == map[]
      && !Live(c.created, now)
  }

  ghost predicate NotFromTheFuture(c: Code, now: Instant) {
    && (forall s :: s in c.pending ==> c.pending[s].created <= now)
    && (forall s :: s in c.completed ==> c.completed[s].created <= now)
  }

  ghost predicate Sound(c: Code, now: Instant) {
    WithinBudget(c) && CompletionExcludesSessions(c, now) && NotFromTheFuture(c, now)
  }

  // ---------------------------------------------------------------- counting

  lemma {:induction false} SubsetSize<T>(a: set<T>, b: set<T>)
    requires a <= b
    ensures |a| <= |b|
  {
    assert b == a + (b - a);
    assert |b| == |a| + |b - a|;
  }

  lemma {:induction false} ImageSize(ids: set<SessionId>, pending: map<SessionId, Pending>)
    requires ids <= pending.Keys
    ensures |set s | s in ids :: pending[s].source| <= |ids|
  {
    var image := set s | s in ids :: pending[s].source;
    if ids == {} {
      assert image == {};
    } else {
      var x :| x in ids;
      var rest := set s | s in ids - {x} :: pending[s].source;
      ImageSize(ids - {x}, pending);
      SubsetSize(image, rest + {pending[x].source});
    }
  }

  lemma SourcesAtMostSessions(c: Code)
    ensures |c.PendingSources()| <= |c.pending|
  {
    ImageSize(c.pending.Keys, c.pending);
    assert c.PendingSources() == set s | s in c.pending.Keys :: c.pending[s].source;
  }

  /** `d` is `c` with some sessions dropped. */
  ghost predicate Fewer(d: Code, c: Code) {
    && d.failures == c.failures && d.pending.Keys <= c.pending.Keys
    && forall s :: s in d.pending ==> d.pending[s] == c.pending[s]
  }

  lemma FewerForSource(c: Code, d: Code, source: Source)
    requires Fewer(d, c)
    ensures Exposure(d, source) <= Exposure(c, source)
    ensures SourceWithinBudget(c, source) ==> SourceWithinBudget(d, source)
  {
    SubsetSize(d.Open(source), c.Open(source));
  }

  /** Dropping sessions only lowers every count. */
  lemma FewerSessions(c: Code, d: Code)
    requires WithinBudget(c) && Fewer(d, c)
    ensures WithinBudget(d)
  {
    SubsetSize(d.pending.Keys, c.pending.Keys);
    forall source ensures SourceWithinBudget(d, source) {
      FewerForSource(c, d, source);
    }
    SubsetSize(Chargeable(d), Chargeable(c));
  }

  // ---------------------------------------------------------------- each operation

  lemma EmptyIsSound(c: Code, now: Instant)
    requires c.failures == map[] && c.pending == map[] && c.completed == map[]
    ensures Sound(c, now)
  {
    forall source ensures SourceWithinBudget(c, source) {
      assert c.Open(source) == {};
    }
    assert Chargeable(c) == {};
  }

  lemma SoundLater(c: Code, now: Instant, later: Instant)
    requires Sound(c, now) && now <= later
    ensures Sound(c, later)
  {
  }

  lemma PrunedIsSound(c: Code, now: Instant)
    requires Sound(c, now)
    ensures Sound(Pruned(c, now), now) && Fewer(Pruned(c, now), c)
  {
    var p := Pruned(c, now);
    FewerSessions(c, p);
    if p.completed != map[] {
      var s :| s in c.completed && c.completed.Keys == {s};
      assert s in p.completed;
      assert p.completed.Keys == {s};
      assert p.pending == map[];
    }
  }

  function WithSession(c: Code, session: SessionId, added: Pending): Code {
    c.(pending := c.pending[session := added])
  }

  lemma AddedForOther(p: Code, session: SessionId, added: Pending, source: Source)
    requires SourceWithinBudget(p, source) && source != added.source
    ensures SourceWithinBudget(WithSession(p, session, added), source)
  {
    SubsetSize(WithSession(p, session, added).Open(source), p.Open(source));
  }

  lemma AddedForSource(p: Code, session: SessionId, added: Pending)
    requires |p.pending| < MAX_PENDING_SESSIONS && !Throttled(p, added.source)
    ensures SourceWithinBudget(WithSession(p, session, added), added.source)
  {
    var d, source := WithSession(p, session, added), added.source;
    SubsetSize(d.Open(source), p.Open(source) + {session});
    SubsetSize(d.Open(source), d.pending.Keys);
    assert d.pending.Keys == p.pending.Keys + {session};
  }

  /** Adding one session for an unthrottled source, possibly over a colliding one. */
  lemma SessionAdded(p: Code, session: SessionId, added: Pending)
    requires WithinBudget(p) && !Throttled(p, added.source)
    ensures WithinBudget(WithSession(p, session, added))
  {
    var d := WithSession(p, session, added);
    assert d.pending.Keys == p.pending.Keys + {session};
    AddedForSource(p, session, added);
    forall source | source != added.source ensures SourceWithinBudget(d, source) {
      assert SourceWithinBudget(p, source);
      AddedForOther(p, session, added, source);
    }
    if added.source in p.failures {
      SubsetSize(Chargeable(d), Chargeable(p));
    } else {
      SourcesAtMostSessions(d);
      assert |Chargeable(d)| <= |d.failures.Keys| + |d.PendingSources()|;
    }
  }

  lemma AddedIsSound(p: Code, now: Instant, session: SessionId, added: Pending)
    requires Sound(p, now) && p.completed == map[] && !Throttled(p, added.source) && added.created <= now
    ensures Sound(WithSession(p, session, added), now)
  {
    SessionAdded(p, session, added);
  }

  /** A start refuses, prunes and refuses, or prunes and adds one session. */
  lemma StartedTables(c: Code, now: Instant, source: Source, clientMessage: Bytes, exchange: Option<Exchange>,
                      session: SessionId)
    ensures var d, p := Start(c, now, source, clientMessage, exchange, session).0, Pruned(c, now);
            || d == c || d == p
            || (&& Live(c.created, now) && !Throttled(p, source) && exchange.Some?
                && d == WithSession(p, session, Pending(exchange.value.shared, clientMessage,
                                                        exchange.value.hostMessage, now, source)))
  {
  }

  lemma StartIsSound(c: Code, now: Instant, source: Source, clientMessage: Bytes, exchange: Option<Exchange>,
                     session: SessionId)
    requires Sound(c, now)
    ensures Sound(Start(c, now, source, clientMessage, exchange, session).0, now)
  {
    StartedTables(c, now, source, clientMessage, exchange, session);
    PrunedIsSound(c, now);
    var p := Pruned(c, now);
    if Live(c.created, now) && !Throttled(p, source) && exchange.Some? {
      assert p.completed == map[];
      AddedIsSound(p, now, session,
                   Pending(exchange.value.shared, clientMessage, exchange.value.hostMessage, now, source));
    }
  }

  /** A failed confirmation moves one unit of exposure from an open session to the counter,
      which therefore never saturates, and leaves every other source alone. */
  lemma FailedForSource(p: Code, session: SessionId, source: Source)
    requires session in p.pending && SourceWithinBudget(p, source)
    ensures var d := Refused(p, session);
            && Exposure(d, source) == Exposure(p, source) && SourceWithinBudget(d, source)
            && (source == p.pending[session].source ==>
                  d.FailureCount(source) == p.FailureCount(source) + 1 && d.Open(source) == p.Open(source) - {session})
  {
    var d := Refused(p, session);
    if source == p.pending[session].source {
      assert session in p.Open(source);
      assert d.Open(source) == p.Open(source) - {session};
    } else {
      assert d.Open(source) == p.Open(source);
    }
  }

  lemma SessionFailed(p: Code, session: SessionId)
    requires WithinBudget(p) && session in p.pending
    ensures WithinBudget(Refused(p, session))
  {
    var d := Refused(p, session);
    SubsetSize(d.pending.Keys, p.pending.Keys);
    SubsetSize(Chargeable(d), Chargeable(p));
    forall source ensures SourceWithinBudget(d, source) {
      FailedForSource(p, session, source);
    }
  }

  lemma FinishIsSound(c: Code, now: Instant, k: Crypto, session: Bytes, confirmation: Bytes, ctx: CredentialContext,
                      credential: Credential, nonce: Bytes)
    requires Sound(c, now)
    ensures Sound(Finish(c, now, k, session, confirmation, ctx, credential, nonce).0, now)
  {
    if |session| == 16 {
      PrunedIsSound(c, now);
      var p := Pruned(c, now);
      if session in p.pending && session !in p.completed
         && confirmation != Confirmation(k, session, p.pending[session])
      {
        SessionFailed(p, session);
      }
    }
  }

  /** A code that is expired with no open session can never issue a credential again. */
  ghost predicate Spent(c: Code, now: Instant) {
    c.pending == map[] && !Live(c.created, now)
  }

  /** Committing an open session leaves its completion, alone and still fresh, and a used-up code. */
  lemma CommitLeavesOne(c: Code, now: Instant, session: Bytes, confirmation: Bytes, result: PairingResult)
    requires |session| == 16 && session in c.pending
    ensures var d := Commit(c, now, session, confirmation, result).0;
            && Spent(d, now) && d.completed.Keys == {session} && d.completed[session].result == result
            && Pruned(d, now).completed == d.completed
  {
    var d := Commit(c, now, session, confirmation, result).0;
    assert session in Pruned(d, now).completed;
  }

  lemma CommitIsSound(c: Code, now: Instant, session: Bytes, confirmation: Bytes, result: PairingResult)
    requires Sound(c, now)
    ensures Sound(Commit(c, now, session, confirmation, result).0, now)
  {
    if |session| == 16 && session in c.pending {
      var d := Commit(c, now, session, confirmation, result).0;
      FewerSessions(c, d);
      CommitLeavesOne(c, now, session, confirmation, result);
    }
  }

  // ---------------------------------------------------------------- what the invariants give

  /** `was_completed` is read before pruning, but still tells which branch `finish` takes
      whenever `finish` succeeds: a cached result, or a session that is still open. */
  lemma CompletionFlagIsExact(c: Code, now: Instant, k: Crypto, session: Bytes, confirmation: Bytes,
                              ctx: CredentialContext, credential: Credential, nonce: Bytes)
    requires Sound(c, now)
    requires Finish(c, now, k, session, confirmation, ctx, credential, nonce).1.Ok?
    ensures var (d, r) := Finish(c, now, k, session, confirmation, ctx, credential, nonce);
            && |session| == 16
            && (IsCompleted(c, session) ==>
                  session in d.completed && d.completed[session].confirmation == confirmation
                  && r.value == d.completed[session].result && r.value == c.completed[session].result)
            && (!IsCompleted(c, session) ==>
                  && session in c.pending && session in d.pending && d == Pruned(c, now)
                  && confirmation == Confirmation(k, session, c.pending[session])
                  && Live(c.pending[session].created, now) && r.value.credential == credential)
  {
    PrunedIsSound(c, now);
    if IsCompleted(c, session) {
      assert c.pending == map[];
      assert Pruned(c, now).pending == map[];
    }
  }

  // ---------------------------------------------------------------- five failures per source?

  /** One submitted confirmation, with the credential drawn if it is right. */
  datatype Attempt = Attempt(at: Instant, session: SessionId, confirmation: Bytes, credential: Credential)

  /** Confirmations submitted one after another. */
  function Attempts(c: Code, k: Crypto, ctx: CredentialContext, tries: seq<Attempt>): Code
    decreases |tries|
  {
    if tries == [] then c
    else
      var t := tries[0];
      var d := Finish(c, t.at, k, t.session, t.confirmation, ctx, t.credential, []).0;
      Attempts(d, k, ctx, tries[1..])
  }

  predicate Forward(tries: seq<Attempt>, now: Instant)
    decreases |tries|
  {
    tries == [] || (now <= tries[0].at && Forward(tries[1..], tries[0].at))
  }

  /** Finishing prunes, and at most refuses one session. */
  lemma FinishedTables(c: Code, now: Instant, k: Crypto, session: Bytes, confirmation: Bytes, ctx: CredentialContext,
                       credential: Credential, nonce: Bytes)
    ensures var d, p := Finish(c, now, k, session, confirmation, ctx, credential, nonce).0, Pruned(c, now);
            d == c || d == p || (|session| == 16 && session in p.pending && d == Refused(p, session))
  {
  }

  lemma FinishKeepsExposure(c: Code, now: Instant, k: Crypto, session: Bytes, confirmation: Bytes,
                            ctx: CredentialContext, credential: Credential, nonce: Bytes, source: Source)
    requires Sound(c, now)
    ensures Exposure(Finish(c, now, k, session, confirmation, ctx, credential, nonce).0, source) <= Exposure(c, source)
  {
    var p := Pruned(c, now);
    PrunedIsSound(c, now);
    FewerForSource(c, p, source);
    FinishedTables(c, now, k, session, confirmation, ctx, credential, nonce);
    if |session| == 16 && session in p.pending {
      assert SourceWithinBudget(p, source);
      FailedForSource(p, session, source);
    }
  }

  /** Confirmations alone never raise a source's exposure. */
  lemma {:induction false} AttemptsKeepExposure(c: Code, now: Instant, k: Crypto, ctx: CredentialContext,
                                                tries: seq<Attempt>, source: Source)
    requires Sound(c, now) && Forward(tries, now)
    ensures Exposure(Attempts(c, k, ctx, tries), source) <= Exposure(c, source)
    decreases |tries|
  {
    if tries != [] {
      var t := tries[0];
      SoundLater(c, now, t.at);
      FinishIsSound(c, t.at, k, t.session, t.confirmation, ctx, t.credential, []);
      FinishKeepsExposure(c, t.at, k, t.session, t.confirmation, ctx, t.credential, [], source);
      var d := Finish(c, t.at, k, t.session, t.confirmation, ctx, t.credential, []).0;
      AttemptsKeepExposure(d, t.at, k, ctx, tries[1..], source);
    }
  }

  /** A confirmation that is certainly wrong. */
  function WrongGuess(k: Crypto, session: SessionId, p: Pending): Bytes {
    Confirmation(k, session, p) + [0]
  }

  lemma WrongGuessIsRefused(c: Code, now: Instant, k: Crypto, ctx: CredentialContext, s: SessionId,
                            credential: Credential)
    requires Pruned(c, now) == c && c.completed == map[] && s in c.pending
    ensures var (d, r) := Finish(c, now, k, s, WrongGuess(k, s, c.pending[s]), ctx, credential, []);
            d == Refused(c, s) && r.Err?
  {
    assert |WrongGuess(k, s, c.pending[s])| != |Confirmation(k, s, c.pending[s])|;
  }

  lemma RefusedStaysPruned(c: Code, now: Instant, s: SessionId)
    requires Pruned(c, now) == c && c.completed == map[] && s in c.pending
    ensures Pruned(Refused(c, s), now) == Refused(c, s)
  {
    var d := Refused(c, s);
    forall x | x in d.pending ensures x in Pruned(d, now).pending {
      assert x in Pruned(c, now).pending;
    }
    assert Pruned(d, now).pending == d.pending;
  }

  function Guess(c: Code, now: Instant, k: Crypto, s: SessionId): Attempt
    requires s in c.pending
  {
    Attempt(now, s, WrongGuess(k, s, c.pending[s]), seq(32, _ => 0))
  }

  /** One wrong guess, and what comes after it. */
  lemma GuessFirst(c: Code, now: Instant, k: Crypto, ctx: CredentialContext, s: SessionId, rest: seq<Attempt>)
    requires Pruned(c, now) == c && c.completed == map[] && s in c.pending
    ensures Attempts(c, k, ctx, [Guess(c, now, k, s)] + rest) == Attempts(Refused(c, s), k, ctx, rest)
    ensures Forward(rest, now) ==> Forward([Guess(c, now, k, s)] + rest, now)
  {
    var t := Guess(c, now, k, s);
    WrongGuessIsRefused(c, now, k, ctx, s, t.credential);
    assert ([t] + rest)[1..] == rest;
  }

  /** `d` is `c` without the sessions of `source`, which was charged for them. */
  ghost predicate Drained(c: Code, d: Code, source: Source) {
    && d.created == c.created && d.completed == c.completed
    && d.failures.Keys <= c.failures.Keys + {source}
    && d.pending.Keys == c.pending.Keys - c.Open(source)
    && (forall s :: s in d.pending ==> d.pending[s] == c.pending[s])
  }

  lemma DrainedStep(c: Code, s: SessionId, d: Code, source: Source)
    requires s in c.Open(source) && Drained(Refused(c, s), d, source)
    ensures Drained(c, d, source)
  {
    assert Refused(c, s).Open(source) == c.Open(source) - {s};
  }

  /** Guessing wrongly on every open session of a source turns its whole exposure into failures. */
  lemma {:induction false} EverySessionCanFail(c: Code, now: Instant, k: Crypto, ctx: CredentialContext, source: Source)
    returns (tries: seq<Attempt>)
    requires SourceWithinBudget(c, source) && Pruned(c, now) == c && c.completed == map[]
    ensures Forward(tries, now)
    ensures Attempts(c, k, ctx, tries).FailureCount(source) == Exposure(c, source)
    ensures Drained(c, Attempts(c, k, ctx, tries), source)
    decreases |c.Open(source)|
  {
    if c.Open(source) == {} {
      tries := [];
    } else {
      var s :| s in c.Open(source);
      FailedForSource(c, s, source);
      RefusedStaysPruned(c, now, s);
      var rest := EverySessionCanFail(Refused(c, s), now, k, ctx, source);
      tries := [Guess(c, now, k, s)] + rest;
      GuessFirst(c, now, k, ctx, s, rest);
      DrainedStep(c, s, Attempts(Refused(c, s), k, ctx, rest), source);
    }
  }

  /** The sessions a start under this identifier leaves open: all but one that it would replace. */
  function Freed(c: Code, session: SessionId): Code {
    c.(pending := c.pending - {session})
  }

  /** The documentation promises at most five failed confirmations per source and code. The
      limit is only tested when a session is opened, so once a start is granted, wrong guesses on
      the sessions then open exceed five if and only if failures and open sessions, counted
      together before the start, had already reached five. A session whose identifier the new one
      happens to take does not count. */
  lemma FiveFailuresExceededIff(c: Code, now: Instant, k: Crypto, ctx: CredentialContext,
                                address: Bytes, clientMessage: Bytes, exchange: Exchange, session: SessionId)
    requires Sound(c, now)
    requires Start(c, now, Some(address), clientMessage, Some(exchange), session).1.Ok?
    ensures var d := Start(c, now, Some(address), clientMessage, Some(exchange), session).0;
            (exists tries :: Forward(tries, now)
                             && Attempts(d, k, ctx, tries).FailureCount(Some(address)) > MAX_CONFIRMATION_FAILURES)
            <==> Exposure(Freed(Pruned(c, now), session), Some(address)) >= MAX_CONFIRMATION_FAILURES
  {
    var source: Source := Some(address);
    var d := Start(c, now, source, clientMessage, Some(exchange), session).0;
    StartRaisesExposure(c, now, source, clientMessage, exchange, session);
    StartLeavesPruned(c, now, source, clientMessage, exchange, session);
    forall tries | Forward(tries, now)
      ensures Attempts(d, k, ctx, tries).FailureCount(source) <= Exposure(d, source)
    {
      AttemptsKeepExposure(d, now, k, ctx, tries, source);
    }
    if Exposure(d, source) > MAX_CONFIRMATION_FAILURES {
      assert SourceWithinBudget(d, source);
      var tries := EverySessionCanFail(d, now, k, ctx, source);
      assert Forward(tries, now) && Attempts(d, k, ctx, tries).FailureCount(source) > MAX_CONFIRMATION_FAILURES;
    }
  }

  lemma StartRaisesExposure(c: Code, now: Instant, source: Source, clientMessage: Bytes, exchange: Exchange,
                            session: SessionId)
    requires Start(c, now, source, clientMessage, Some(exchange), session).1.Ok?
    ensures var d := Start(c, now, source, clientMessage, Some(exchange), session).0;
            Exposure(d, source) == Exposure(Freed(Pruned(c, now), session), source) + 1
  {
    AddedExposure(Pruned(c, now), session, Pending(exchange.shared, clientMessage, exchange.hostMessage, now, source));
  }

  lemma StartLeavesPruned(c: Code, now: Instant, source: Source, clientMessage: Bytes, exchange: Exchange,
                          session: SessionId)
    requires Sound(c, now)
    requires Start(c, now, source, clientMessage, Some(exchange), session).1.Ok?
    ensures var d := Start(c, now, source, clientMessage, Some(exchange), session).0;
            Sound(d, now) && Pruned(d, now) == d && d.completed == map[]
  {
    StartIsSound(c, now, source, clientMessage, Some(exchange), session);
    StartGranted(c, now, source, clientMessage, exchange, session);
    StableUnderPruning(c, now, session, Pending(exchange.shared, clientMessage, exchange.hostMessage, now, source));
  }

  lemma StartGranted(c: Code, now: Instant, source: Source, clientMessage: Bytes, exchange: Exchange,
                     session: SessionId)
    requires CompletionExcludesSessions(c, now)
    requires Start(c, now, source, clientMessage, Some(exchange), session).1.Ok?
    ensures var added := Pending(exchange.shared, clientMessage, exchange.hostMessage, now, source);
            Start(c, now, source, clientMessage, Some(exchange), session).0
            == WithSession(Pruned(c, now), session, added)
    ensures c.completed == map[]
  {
  }

  lemma AddedExposure(p: Code, session: SessionId, added: Pending)
    ensures Exposure(WithSession(p, session, added), added.source) == Exposure(Freed(p, session), added.source) + 1
  {
    AddedOpen(p, session, added);
    assert session !in Freed(p, session).Open(added.source);
  }

  lemma AddedOpen(p: Code, session: SessionId, added: Pending)
    ensures WithSession(p, session, added).Open(added.source) == Freed(p, session).Open(added.source) + {session}
  {
    var d, f := WithSession(p, session, added), Freed(p, session);
    assert session in d.Open(added.source);
    forall s | s != session ensures s in d.Open(added.source) <==> s in f.Open(added.source) {
      assert s in d.pending <==> s in f.pending;
    }
  }

  lemma StableUnderPruning(c: Code, now: Instant, session: SessionId, added: Pending)
    requires c.completed == map[] && added.created == now
    ensures var d := WithSession(Pruned(c, now), session, added);
            Pruned(d, now) == d && d.completed == map[]
  {
  }

  // ---------------------------------------------------------------- twelve are reached

  function SessionNumber(i: byte): SessionId {
    [i, 0, 0, 0, 0, 0, 0, 0, 0, 0, 0, 0, 0, 0, 0, 0]
  }

  /** The address opens `n` sessions, one after another. */
  function Opened(c: Code, now: Instant, address: Bytes, n: nat): Code
    requires n <= 8
  {
    if n == 0 then c
    else Start(Opened(c, now, address, n - 1), now, Some(address), [], Some(Exchange([], [])), SessionNumber(n - 1)).0
  }

  /** A live code that only this address has used. */
  ghost predicate UsedOnlyBy(c: Code, now: Instant, address: Bytes) {
    && Live(c.created, now) && c.completed == map[] && c.failures.Keys <= {Some(address)}
    && forall s :: s in c.pending ==> c.pending[s].source == Some(address) && c.pending[s].created == now
  }

  lemma OpensOne(c: Code, session: SessionId, added: Pending)
    requires session !in c.pending
    ensures var d := WithSession(c, session, added);
            d.pending.Keys == c.pending.Keys + {session} && |d.pending| == |c.pending| + 1
  {
    assert WithSession(c, session, added).pending.Keys == c.pending.Keys + {session};
  }

  lemma OpensForAddress(c: Code, now: Instant, address: Bytes, session: SessionId)
    requires UsedOnlyBy(c, now, address)
    ensures UsedOnlyBy(WithSession(c, session, Pending([], [], [], now, Some(address))), now, address)
  {
  }

  lemma StartIsGranted(c: Code, now: Instant, address: Bytes, session: SessionId)
    requires UsedOnlyBy(c, now, address) && c.FailureCount(Some(address)) < 5 && |c.pending| < 8
    ensures Start(c, now, Some(address), [], Some(Exchange([], [])), session).0
         == WithSession(c, session, Pending([], [], [], now, Some(address)))
  {
    assert Pruned(c, now).pending == c.pending && Pruned(c, now).completed == c.completed;
    SubsetSize(c.failures.Keys, {Some(address)});
    SubsetSize(c.Open(Some(address)), c.pending.Keys);
  }

  lemma {:induction false} OpensMany(c: Code, now: Instant, address: Bytes, n: nat)
    requires n <= 8 && Sound(c, now) && UsedOnlyBy(c, now, address) && c.FailureCount(Some(address)) < 5
             && c.pending == map[]
    ensures var d := Opened(c, now, address, n);
            && Sound(d, now) && UsedOnlyBy(d, now, address) && d.failures == c.failures
            && |d.pending| == n && Numbered(d.pending.Keys, n)
  {
    if n > 0 {
      OpensMany(c, now, address, n - 1);
      var d, session := Opened(c, now, address, n - 1), SessionNumber(n - 1);
      NextIsNew(d.pending.Keys, n - 1);
      StartIsGranted(d, now, address, session);
      StartIsSound(d, now, Some(address), [], Some(Exchange([], [])), session);
      OpensOne(d, session, Pending([], [], [], now, Some(address)));
      OpensForAddress(d, now, address, session);
    }
  }

  /** All sessions have a number below `n`. */
  ghost predicate Numbered(sessions: set<SessionId>, n: nat) {
    forall s :: s in sessions ==> s[0] < n
  }

  lemma NextIsNew(sessions: set<SessionId>, n: nat)
    requires n < 8 && Numbered(sessions, n)
    ensures SessionNumber(n) !in sessions && Numbered(sessions + {SessionNumber(n)}, n + 1)
  {
    assert SessionNumber(n)[0] == n;
  }

  lemma DrainedIsEmpty(c: Code, d: Code, now: Instant, address: Bytes)
    requires UsedOnlyBy(c, now, address) && Drained(c, d, Some(address))
    ensures c.Open(Some(address)) == c.pending.Keys && d.pending == map[] && UsedOnlyBy(d, now, address)
  {
    assert c.Open(Some(address)) == c.pending.Keys;
    assert d.pending.Keys == {};
  }
}
