/** The documented limit of five failed confirmations per source and code: when it holds in a run, and a
    run in which an address earns twelve. */
module HostFailures {
  import opened Common
  import opened Pairing
  import opened PairingLimits
  import opened Host
  import opened HostRuns
  import opened HostState
  import opened HostPromises

  // ---------------------------------------------------------------- when five is the limit

  /** Failures and open sessions that a start for `source` finds, less a session it replaces. */
  ghost function FoundExposure(w: World, session: SessionId, source: Source): nat {
    Exposure(Freed(Pruned(w.app.pairing, w.now), session), source)
  }

  /** Every session opened for the address found fewer than five failures and open sessions together. */
  ghost predicate Careful(site: Site, w: World, es: seq<Event>, address: Bytes) {
    forall k :: 0 <= k < |es| ==> CarefulStep(Run(site, w, es[..k]), es[k], address)
  }

  ghost predicate CarefulStep(w: World, e: Event, address: Bytes) {
    Opens(w, e) && e.source == Some(address) ==>
      FoundExposure(w, e.session, Some(address)) < MAX_CONFIRMATION_FAILURES
  }

  lemma StartExposure(c: Code, now: Instant, source: Source, clientMessage: Bytes, exchange: Option<Exchange>,
                      session: SessionId, other: Source)
    requires other != source || Start(c, now, source, clientMessage, exchange, session).1.Err?
    ensures Exposure(Start(c, now, source, clientMessage, exchange, session).0, other) <= Exposure(c, other)
  {
    var d := Start(c, now, source, clientMessage, exchange, session).0;
    SubsetSize(d.Open(other), c.Open(other));
  }

  /** A confirmation leaves the code as `finish` did, or commits on top of that. */
  lemma FinishedCode(site: Site, a: App, now: nat, session: Bytes, confirmation: Bytes, credential: Credential,
                     nonce: Bytes, saved: bool)
    ensures var ctx := Context(site, a.identity.hostId);
            var d := Finish(a.pairing, now, site.crypto, session, confirmation, ctx, credential, nonce).0;
            Fewer(FinishPairing(site, a, now, session, confirmation, credential, nonce, saved).0.pairing, d)
  {
  }

  lemma ConfirmExposure(site: Site, a: App, now: nat, session: Bytes, confirmation: Bytes, credential: Credential,
                        nonce: Bytes, saved: bool, source: Source)
    requires Sound(a.pairing, now)
    ensures Exposure(FinishPairing(site, a, now, session, confirmation, credential, nonce, saved).0.pairing, source)
         <= Exposure(a.pairing, source)
  {
    var ctx := Context(site, a.identity.hostId);
    FinishedCode(site, a, now, session, confirmation, credential, nonce, saved);
    FinishKeepsExposure(a.pairing, now, site.crypto, session, confirmation, ctx, credential, nonce, source);
    FewerForSource(Finish(a.pairing, now, site.crypto, session, confirmation, ctx, credential, nonce).0,
                   FinishPairing(site, a, now, session, confirmation, credential, nonce, saved).0.pairing, source);
  }

  lemma ReplacedExposure(site: Site, w: World, e: Event, source: Source)
    requires Enabled(w, e) && Replaces(e)
    ensures Exposure(Step(site, w, e).app.pairing, source) <= Exposure(w.app.pairing, source)
  {
    var c := Step(site, w, e).app.pairing;
    if c != w.app.pairing {
      assert c.Open(source) == {};
    }
  }

  /** Only opening a session for the source raises what it can earn, by one. */
  lemma ExposureStep(site: Site, w: World, e: Event, source: Source)
    requires Reliable(w)
    ensures var v := Next(site, w, e);
            Exposure(v.app.pairing, source)
            <= if Opens(w, e) && e.source == source then FoundExposure(w, e.session, source) + 1
               else Exposure(w.app.pairing, source)
  {
    if Enabled(w, e) {
      if Quiet(e) {
        QuietEffects(site, w, e);
      } else if e.ConfirmPairing? {
        ConfirmExposure(site, w.app, w.now, e.sessionId, e.confirmation, e.credential, e.nonce, e.saved, source);
      } else if e.OpenPairing? {
        if Opens(w, e) && e.source == source {
          StartRaisesExposure(w.app.pairing, w.now, source, e.clientMessage, e.exchange.value, e.session);
        } else {
          StartExposure(w.app.pairing, w.now, e.source, e.clientMessage, e.exchange, e.session, source);
        }
      } else {
        ReplacedExposure(site, w, e, source);
      }
    }
  }

  lemma {:induction false} CarefulExposure(site: Site, hostId: Bytes, code: string, t: nat, es: seq<Event>,
                                           address: Bytes)
    requires ValidCode(code) && Careful(site, Installed(hostId, code, t), es, address)
    ensures Exposure(Run(site, Installed(hostId, code, t), es).app.pairing, Some(address)) <= MAX_CONFIRMATION_FAILURES
  {
    var w := Installed(hostId, code, t);
    if es == [] {
      assert w.app.pairing.Open(Some(address)) == {};
    } else {
      var n := |es| - 1;
      forall k | 0 <= k < n ensures CarefulStep(Run(site, w, es[..n][..k]), es[..n][k], address) {
        assert es[..n][..k] == es[..k] && CarefulStep(Run(site, w, es[..k]), es[k], address);
      }
      CarefulExposure(site, hostId, code, t, es[..n], address);
      AlwaysReliable(site, hostId, code, t, es[..n]);
      assert CarefulStep(Run(site, w, es[..n]), es[n], address);
      ExposureStep(site, Run(site, w, es[..n]), es[n], Some(address));
    }
  }

  /** The documented limit holds in every run in which each session opened for the address found fewer
      than five failures and open sessions of that address together. */
  lemma FiveFailuresHold(site: Site, hostId: Bytes, code: string, t: nat, es: seq<Event>, address: Bytes)
    requires ValidCode(code) && Careful(site, Installed(hostId, code, t), es, address)
    ensures Run(site, Installed(hostId, code, t), es).app.pairing.FailureCount(Some(address))
            <= MAX_CONFIRMATION_FAILURES
  {
    CarefulExposure(site, hostId, code, t, es, address);
  }

  // ---------------------------------------------------------------- twelve are reached

  /** A client at the address passes the already-paired check and opens a session, `n` times. */
  function OpenEvents(address: Bytes, n: nat): seq<Event>
    requires n <= 8
  {
    if n == 0 then []
    else
      OpenEvents(address, n - 1)
      + [Admit(0), OpenPairing(0, Some(address), [], Some(Exchange([], [])), SessionNumber(n - 1))]
  }

  lemma OneOpened(site: Site, w: World, address: Bytes, session: SessionId)
    requires PairingAllowed(w.app) && w.admitted == {}
    ensures var d := Start(w.app.pairing, w.now, Some(address), [], Some(Exchange([], [])), session).0;
            Run(site, w, [Admit(0), OpenPairing(0, Some(address), [], Some(Exchange([], [])), session)])
            == w.(app := w.app.(pairing := d))
  {
    var es := [Admit(0), OpenPairing(0, Some(address), [], Some(Exchange([], [])), session)];
    RunStep(site, w, es, 0);
    RunStep(site, w, es, 1);
    assert es[..0] == [] && es[..2] == es;
    assert {0} - {0} == w.admitted;
  }

  /** The events open the sessions that `Opened` counts, and change nothing else. */
  lemma {:induction false} OpenEventsRun(site: Site, w: World, address: Bytes, n: nat)
    requires n <= 8 && PairingAllowed(w.app) && w.admitted == {}
    ensures Run(site, w, OpenEvents(address, n))
         == w.(app := w.app.(pairing := Opened(w.app.pairing, w.now, address, n)))
  {
    if n > 0 {
      OpenEventsRun(site, w, address, n - 1);
      RunAppend(site, w, OpenEvents(address, n - 1),
                [Admit(0), OpenPairing(0, Some(address), [], Some(Exchange([], [])), SessionNumber(n - 1))]);
      OneOpened(site, Run(site, w, OpenEvents(address, n - 1)), address, SessionNumber(n - 1));
    }
  }

  function CredentialNumber(i: byte): Credential {
    [i] + seq(31, _ => 0)
  }

  /** All credentials drawn so far have a number below `n`. */
  ghost predicate DrawnBelow(issued: set<Credential>, n: nat) {
    forall x :: x in issued ==> x[0] < n
  }

  /** A confirmation that is certainly wrong. */
  function WrongEvent(site: Site, w: World, s: SessionId, n: byte): Event
    requires s in w.app.pairing.pending
  {
    ConfirmPairing(s, WrongGuess(site.crypto, s, w.app.pairing.pending[s]), CredentialNumber(n), [], true)
  }

  lemma WrongEventRefused(site: Site, w: World, s: SessionId, n: byte)
    requires s in w.app.pairing.pending && Pruned(w.app.pairing, w.now) == w.app.pairing
    requires w.app.pairing.completed == map[] && DrawnBelow(w.issued, n)
    ensures Next(site, w, WrongEvent(site, w, s, n))
         == w.(app := w.app.(pairing := Refused(w.app.pairing, s)), issued := w.issued + {CredentialNumber(n)})
    ensures DrawnBelow(w.issued + {CredentialNumber(n)}, n + 1)
  {
    assert CredentialNumber(n)[0] == n;
    var ctx := Context(site, w.app.identity.hostId);
    WrongGuessIsRefused(w.app.pairing, w.now, site.crypto, ctx, s, CredentialNumber(n));
  }

  /** Wrong confirmations on every open session of a source turn its whole exposure into failures, and
      change nothing else. */
  lemma {:induction false} FailAll(site: Site, w: World, source: Source, n: nat) returns (es: seq<Event>)
    requires SourceWithinBudget(w.app.pairing, source) && Pruned(w.app.pairing, w.now) == w.app.pairing
    requires w.app.pairing.completed == map[]
    requires DrawnBelow(w.issued, n) && n + |w.app.pairing.Open(source)| < 256
    ensures var v, c := Run(site, w, es), w.app.pairing;
            && v == w.(app := w.app.(pairing := v.app.pairing), issued := v.issued)
            && v.app.pairing.FailureCount(source) == Exposure(c, source) && Drained(c, v.app.pairing, source)
            && DrawnBelow(v.issued, n + |c.Open(source)|)
    decreases |w.app.pairing.Open(source)|
  {
    var c := w.app.pairing;
    if c.Open(source) == {} {
      es := [];
    } else {
      var s :| s in c.Open(source);
      var e := WrongEvent(site, w, s, n);
      FailedForSource(c, s, source);
      RefusedStaysPruned(c, w.now, s);
      WrongEventRefused(site, w, s, n);
      var rest := FailAll(site, Next(site, w, e), source, n + 1);
      es := [e] + rest;
      RunAppend(site, w, [e], rest);
      RunOne(site, w, e);
      DrainedStep(c, s, Run(site, w, es).app.pairing, source);
    }
  }

  lemma RunOne(site: Site, w: World, e: Event)
    ensures Run(site, w, [e]) == Next(site, w, e)
  {
    assert [e][..0] == [];
  }

  /** The address opens `n` sessions on a code only it has used, and fails them all. */
  lemma OpenAndFail(site: Site, w: World, address: Bytes, n: nat, drawn: nat) returns (es: seq<Event>)
    requires n <= 8 && drawn + n < 256 && DrawnBelow(w.issued, drawn) && PairingAllowed(w.app) && w.admitted == {}
    requires Sound(w.app.pairing, w.now) && UsedOnlyBy(w.app.pairing, w.now, address)
    requires w.app.pairing.pending == map[] && w.app.pairing.FailureCount(Some(address)) < 5
    ensures var v := Run(site, w, es);
            && v == w.(app := w.app.(pairing := v.app.pairing), issued := v.issued)
            && DrawnBelow(v.issued, drawn + n)
            && UsedOnlyBy(v.app.pairing, w.now, address) && v.app.pairing.pending == map[]
            && v.app.pairing.FailureCount(Some(address)) == w.app.pairing.FailureCount(Some(address)) + n
  {
    OpenEventsRun(site, w, address, n);
    OpensMany(w.app.pairing, w.now, address, n);
    var middle := Run(site, w, OpenEvents(address, n));
    var c := middle.app.pairing;
    UsedIsPruned(c, w.now, address);
    assert SourceWithinBudget(c, Some(address));
    var fails := FailAll(site, middle, Some(address), drawn);
    es := OpenEvents(address, n) + fails;
    RunAppend(site, w, OpenEvents(address, n), fails);
    DrainedIsEmpty(c, Run(site, w, es).app.pairing, w.now, address);
  }

  lemma UsedIsPruned(c: Code, now: Instant, address: Bytes)
    requires UsedOnlyBy(c, now, address)
    ensures Pruned(c, now) == c && c.Open(Some(address)) == c.pending.Keys
  {
    assert Pruned(c, now).pending == c.pending && Pruned(c, now).completed == c.completed;
  }

  lemma AfterGenerate(site: Site, hostId: Bytes, code: string, t: nat, address: Bytes)
    requires ValidCode(code)
    ensures var w := Run(site, Installed(hostId, code, t), [Generate(code, true)]);
            && w.now == t && w.app.pairing == Generated(code, t) && w.issued == {} && w.admitted == {}
            && PairingAllowed(w.app) && UsedOnlyBy(w.app.pairing, t, address) && Sound(w.app.pairing, t)
  {
    RunOne(site, Installed(hostId, code, t), Generate(code, true));
    EmptyIsSound(Generated(code, t), t);
  }

  /** The bound of twelve is reached, so five is not a limit: every installation has a run in which, under
      one code, an address opens four sessions and fails them, then opens eight more and fails those. */
  lemma TwelveFailuresHappen(site: Site, hostId: Bytes, code: string, t: nat, address: Bytes)
    returns (es: seq<Event>)
    requires ValidCode(code)
    ensures Run(site, Installed(hostId, code, t), es).app.pairing.FailureCount(Some(address))
         == MAX_FAILURES_PER_ADDRESS
  {
    var start, ask := Installed(hostId, code, t), [Generate(code, true)];
    AfterGenerate(site, hostId, code, t, address);
    var w := Run(site, start, ask);
    var four := OpenAndFail(site, w, address, 4, 0);
    RunAppend(site, start, ask, four);
    AlwaysReliable(site, hostId, code, t, ask + four);
    var eight := OpenAndFail(site, Run(site, start, ask + four), address, 8, 4);
    RunAppend(site, start, ask + four, eight);
    es := ask + four + eight;
  }
}
