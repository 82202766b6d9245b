/** What the host answers: which requests pass, which pairing attempts are granted, how long a code is
    offered, and what is recorded. The counterpart of the limits: nothing is refused without a reason. */
module HostAnswers {
  import opened Common
  import opened Authentication
  import opened Pairing
  import opened Host
  import opened HostRuns
  import opened HostState
  import opened HostPromises
  import opened HostReplay

  // ---------------------------------------------------------------- requests with an unused nonce

  /** Some request in the run carried this nonce. */
  ghost predicate Used(es: seq<Event>, nonce: Bytes) {
    exists k :: 0 <= k < |es| && es[k].ReadCredential? && es[k].request.nonce == nonce
  }

  /** Every nonce the host knows of was carried by some request. */
  ghost predicate OnlyUsed(w: World, es: seq<Event>) {
    && (forall n :: n in w.app.auth.nonces ==> Used(es, n))
    && (forall id :: id in w.inFlight ==> Used(es, w.inFlight[id].request.nonce))
    && (forall i :: 0 <= i < |w.accepted| ==> Used(es, w.accepted[i].message.nonce))
  }

  lemma UsedLater(es: seq<Event>, nonce: Bytes)
    requires es != [] && Used(es[..|es| - 1], nonce)
    ensures Used(es, nonce)
  {
    var k :| 0 <= k < |es| - 1 && es[k].ReadCredential? && es[k].request.nonce == nonce;
  }

  /** Where the nonces known after a step come from. */
  lemma NoncesStep(site: Site, w: World, e: Event)
    requires Enabled(w, e)
    ensures var v := Step(site, w, e);
            && (forall n :: n in v.app.auth.nonces ==>
                  n in w.app.auth.nonces || exists id :: id in w.inFlight && w.inFlight[id].request.nonce == n)
            && (forall id :: id in v.inFlight ==>
                  || (id in w.inFlight && v.inFlight[id].request == w.inFlight[id].request)
                  || (e.ReadCredential? && v.inFlight[id].request == e.request))
  {
    if e.Verify? {
      assert w.inFlight[e.id].request == w.inFlight[e.id].request;
    }
  }

  lemma AcceptedStep(site: Site, w: World, e: Event)
    requires Enabled(w, e)
    ensures var v := Step(site, w, e);
            forall i :: 0 <= i < |v.accepted| ==>
              || (i < |w.accepted| && v.accepted[i] == w.accepted[i])
              || exists id :: id in w.inFlight && w.inFlight[id].request.nonce == v.accepted[i].message.nonce
  {
    if e.Spend? {
      assert w.inFlight[e.id].request == w.inFlight[e.id].request;
    } else {
      OtherRequests(site, w, e);
    }
  }

  lemma {:induction false} AlwaysOnlyUsed(site: Site, hostId: Bytes, code: string, t: nat, es: seq<Event>)
    requires ValidCode(code)
    ensures OnlyUsed(Run(site, Installed(hostId, code, t), es), es)
  {
    if es != [] {
      var n := |es| - 1;
      AlwaysOnlyUsed(site, hostId, code, t, es[..n]);
      OnlyUsedStep(site, Run(site, Installed(hostId, code, t), es[..n]), es);
    }
  }

  lemma OnlyUsedStep(site: Site, w: World, es: seq<Event>)
    requires es != [] && OnlyUsed(w, es[..|es| - 1])
    ensures OnlyUsed(Next(site, w, es[|es| - 1]), es)
  {
    var e := es[|es| - 1];
    forall n | Used(es[..|es| - 1], n) ensures Used(es, n) {
      UsedLater(es, n);
    }
    if Enabled(w, e) {
      NoncesStep(site, w, e);
      AcceptedStep(site, w, e);
    }
  }

  /** The parts of `authenticate`, one after another. */
  function Authenticating(id: RequestId, q: Request, payload: Option<string>, saved: bool): seq<Event> {
    [ReadCredential(id, q, payload), Verify(id), Spend(id, saved)]
  }

  /** In every run, a request that is signed with the credential in use, stamped within sixty seconds, and
      carries a nonce that no request carried before, is authenticated; a shutdown only if its nonce can be
      saved, and then it is accepted under the next ticket. */
  lemma FreshRequestPasses(site: Site, hostId: Bytes, code: string, t: nat, es: seq<Event>,
                           id: RequestId, q: Request, payload: Option<string>, saved: bool)
    requires ValidCode(code) && !Used(es, q.nonce)
    requires var w := Run(site, Installed(hostId, code, t), es);
             && id !in w.inFlight && w.app.identity.credential.Some?
             && Signed(site.crypto, w.app.identity.credential.value, q)
             && q.timestamp <= Seconds(w.now) + 60 && Seconds(w.now) <= q.timestamp + 60
    ensures var w := Run(site, Installed(hostId, code, t), es);
            var v := Run(site, Installed(hostId, code, t), es + Authenticating(id, q, payload, saved));
            var shutdown := q.path == "/v1/shutdown";
            && (id in v.inFlight <==> !shutdown || saved)
            && (id in v.inFlight ==>
                  v.inFlight[id] == InFlight(q, payload, w.app.identity.credential.value,
                                             Authenticated(if shutdown then Some(|w.accepted|) else None)))
  {
    var start := Installed(hostId, code, t);
    var w := Run(site, start, es);
    AlwaysOnlyUsed(site, hostId, code, t, es);
    AlwaysAccountable(site, hostId, code, t, es);
    FreshVerified(site, w, id, q, payload);
    var u := Next(site, Next(site, w, ReadCredential(id, q, payload)), Verify(id));
    LedgerIsHistory(w, q.nonce);
    assert !Blocked(w, q.nonce);
    SpendResult(site, u, id, saved);
    RunAppend(site, start, es, Authenticating(id, q, payload, saved));
    RunThree(site, w, Authenticating(id, q, payload, saved));
  }

  lemma RunThree(site: Site, w: World, es: seq<Event>)
    requires |es| == 3
    ensures Run(site, w, es) == Next(site, Next(site, Next(site, w, es[0]), es[1]), es[2])
  {
    RunStep(site, w, es, 0);
    RunStep(site, w, es, 1);
    RunStep(site, w, es, 2);
    assert es[..0] == [] && es[..3] == es;
  }

  lemma FreshVerified(site: Site, w: World, id: RequestId, q: Request, payload: Option<string>)
    requires id !in w.inFlight && w.app.identity.credential.Some? && q.nonce !in w.app.auth.nonces
    requires Signed(site.crypto, w.app.identity.credential.value, q) && InWindow(Seconds(w.now), q.timestamp)
    ensures var u := Next(site, Next(site, w, ReadCredential(id, q, payload)), Verify(id));
            && u == w.(app := w.app.(auth := u.app.auth), inFlight := u.inFlight)
            && id in u.inFlight
            && u.inFlight[id] == InFlight(q, payload, w.app.identity.credential.value, Verified)
  {
    var v := Next(site, w, ReadCredential(id, q, payload));
    assert Next(site, v, Verify(id)) == VerifyInFlight(site, v, id);
  }

  // ---------------------------------------------------------------- what is recorded and delivered

  /** In every run, what dispatching an authenticated request does. The power controller is called exactly
      for a shutdown whose body is in order. A version is remembered if it is strict, and saved if it was
      not remembered before and the save succeeds. */
  lemma DispatchIff(site: Site, w: World, id: RequestId, saved: bool)
    requires id in w.inFlight && w.inFlight[id].phase.Authenticated?
    ensures var v, f := Next(site, w, Dispatch(id, saved)), w.inFlight[id];
            var strict := f.payload.Some? && Versions.Printed(f.payload.value);
            && id !in v.inFlight
            && v.delivered
               == w.delivered + (if f.payload.Some? && f.phase.ticket.Some? then [f.phase.ticket.value] else [])
            && v.app.latest == (if strict then f.payload else w.app.latest)
            && (if strict && saved && w.app.latest != f.payload && w.app.identity.lastClientVersion != f.payload then
                  v.app.identity == v.app.disk == w.app.identity.(lastClientVersion := f.payload)
                else v.app.identity == w.app.identity && v.app.disk == w.app.disk)
            && v.app.pairing == w.app.pairing && v.app.auth == w.app.auth
  {
    if w.inFlight[id].payload.Some? {
      RecordsIff(w.app, w.inFlight[id].payload.value, saved);
    }
  }

  lemma RecordsIff(a: App, version: string, saved: bool)
    ensures var b, strict := RecordVersion(a, version, saved), Versions.Printed(version);
            && b == a.(identity := b.identity, disk := b.disk, latest := if strict then Some(version) else a.latest)
            && (if strict && saved && a.latest != Some(version) && a.identity.lastClientVersion != Some(version) then
                  b.identity == b.disk == a.identity.(lastClientVersion := Some(version))
                else b.identity == a.identity && b.disk == a.disk)
  {
    OwnVersionIsPrinted();
    Versions.HostUnknownIff(version, HOST_VERSION);
  }

  lemma OwnVersionIsPrinted()
    ensures Versions.Printed(HOST_VERSION)
  {
    var v := Versions.Version(0, 1, 0);
    assert Versions.Show(v) == HOST_VERSION;
  }

  // ---------------------------------------------------------------- how long a code is offered

  /** Whole seconds left of three hundred. */
  function Left(elapsed: int): int {
    if elapsed < 300 * SECOND then 300 * SECOND - elapsed else 0
  }

  /** A persisted code is offered after a restart as long as whole seconds are left since its recorded
      creation. Without one, none is shown. */
  ghost predicate AgeKept(w: World, v: World) {
    var i := w.app.disk;
    && (i.pairingCode.Some? && i.createdAt > 0 ==>
          && i.createdAt <= Seconds(w.now) && v.app.pairing.code == i.pairingCode.value
          && (Live(v.app.pairing.created, v.now) <==> Seconds(v.now) <= i.createdAt + 300)
          && PairingStateOf(v.app, v.now)
             == PairingState(i.credential.Some?, i.pairingCode, Left((Seconds(v.now) - i.createdAt) * SECOND)))
    && (i.pairingCode.None? ==> PairingStateOf(v.app, v.now) == PairingState(i.credential.Some?, None, 300 * SECOND))
  }

  /** In every run, a restart that loads a code gives it the age of its recorded creation: sessions can be
      opened exactly until 300 whole seconds after that, and the time shown is what is left of them. */
  lemma RestartedCodeAge(site: Site, hostId: Bytes, code: string, t: nat, es: seq<Event>, generated: string)
    requires ValidCode(code) && ValidCode(generated)
    ensures var w := Run(site, Installed(hostId, code, t), es);
            AgeKept(w, Next(site, w, Restart(generated)))
  {
    AlwaysReliable(site, hostId, code, t, es);
    RestartAge(site, Run(site, Installed(hostId, code, t), es), generated);
  }

  lemma RestartAge(site: Site, w: World, generated: string)
    requires Reliable(w) && ValidCode(generated)
    ensures AgeKept(w, Next(site, w, Restart(generated)))
  {
    if w.app.disk.pairingCode.Some? {
      PersistedCode(w);
    }
    BootedAge(site, w, generated);
  }

  lemma BootedAge(site: Site, w: World, generated: string)
    requires ValidCode(generated)
    requires w.app.disk.pairingCode.Some? ==>
               ValidCode(w.app.disk.pairingCode.value) && w.app.disk.createdAt <= Seconds(w.now)
    ensures AgeKept(w, Next(site, w, Restart(generated)))
  {
    if w.app.disk.pairingCode.Some? && w.app.disk.createdAt > 0 {
      BootAge(w.app.disk, w.now, generated);
    }
    assert Next(site, w, Restart(generated)) == Restarted(w, generated);
  }

  lemma PersistedCode(w: World)
    requires Persisted(w) && Shown(w) && Timely(w) && w.app.disk.pairingCode.Some?
    ensures ValidCode(w.app.disk.pairingCode.value) && w.app.disk.createdAt <= Seconds(w.now)
  {
  }

  lemma BootAge(disk: Identity, now: nat, generated: string)
    requires disk.pairingCode.Some? && ValidCode(disk.pairingCode.value) && 0 < disk.createdAt <= Seconds(now)
    ensures var booted := Boot(disk, now, generated);
            && booted.Some? && booted.value.pairing.code == disk.pairingCode.value
            && (Live(booted.value.pairing.created, now) <==> Seconds(now) <= disk.createdAt + 300)
            && PairingStateOf(booted.value, now)
               == PairingState(disk.credential.Some?, disk.pairingCode, Left((Seconds(now) - disk.createdAt) * SECOND))
  {
  }

  /** The time shown runs down with the clock, until it is zero. */
  lemma TimeRunsDown(c: Code, now: nat, d: nat)
    ensures ExpiresIn(c, now) == Left(now - c.created)
    ensures var left := ExpiresIn(c, now);
            now >= c.created ==> ExpiresIn(c, now + d) == if d < left then left - d else 0
    ensures ExpiresIn(c, now) > 0 ==> Live(c.created, now)
  {
  }

  /** A new code is stored, shown and live for three hundred seconds; if it cannot be saved, nothing changes. */
  lemma GenerateAnswers(a: App, now: nat, code: string, saved: bool)
    ensures var (b, r) := GenerateCode(a, now, code, saved);
            if !saved then b == a && r.None?
            else
              && r == Some(PairingState(a.identity.credential.Some?, Some(code), 300 * SECOND))
              && PairingStateOf(b, now) == r.value
              && b.identity == b.disk == a.identity.(pairingCode := Some(code), createdAt := Seconds(now))
              && b.pairing == Code(code, now, map[], map[], map[]) && b.auth == a.auth && b.latest == a.latest
  {
  }

  /** A fresh installation shows its first code, and grants a session for three hundred seconds, without a
      code being asked for. */
  lemma InstallationOffersCode(site: Site, hostId: Bytes, code: string, t: nat, d: nat, source: Source,
                               clientMessage: Bytes, exchange: Exchange, session: SessionId)
    requires ValidCode(code) && Seconds(t) > 0
    ensures var w := Run(site, Installed(hostId, code, t), [Tick(d), Admit(0)]);
            && PairingStateOf(w.app, w.now) == PairingState(false, Some(code), Left(d))
            && (Opens(w, OpenPairing(0, source, clientMessage, Some(exchange), session)) <==> d <= 300 * SECOND)
  {
    var start, es := Installed(hostId, code, t), [Tick(d), Admit(0)];
    RunStep(site, start, es, 0);
    RunStep(site, start, es, 1);
    assert es[..0] == [] && es[..2] == es;
    var w := Run(site, start, es);
    assert w.app.pairing == Generated(code, t);
    NewCodeStarts(code, t, w.now, source, clientMessage, exchange, session);
  }

  lemma NewCodeStarts(code: string, t: nat, now: nat, source: Source, clientMessage: Bytes, exchange: Exchange,
                      session: SessionId)
    ensures Start(Generated(code, t), now, source, clientMessage, Some(exchange), session).1.Ok?
       <==> now - t <= 300 * SECOND
  {
    var c := Generated(code, t);
    assert Pruned(c, now) == c && c.Open(source) == {};
  }
}
