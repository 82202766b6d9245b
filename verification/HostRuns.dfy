/** The host as a state machine over whole runs: pairing, code generation, authenticated requests,
    failed saves, restarts and the clock, interleaved in any order.

    A handler that holds its locks throughout is one step. The two that do not are split where the
    code lets go: a first pair request checks the identity and then opens a session, and
    `authenticate` reads the credential, verifies, and then spends the nonce. */
module HostRuns {
  import opened Common
  import opened Authentication
  import opened Pairing
  import opened Host

  type RequestId = nat

  /** A signed shutdown message, as far as replay is concerned. */
  datatype Message = Message(credential: Credential, timestamp: nat, nonce: Bytes)

  /** How far `authenticate` got. A shutdown request that passed holds the number of its entry in
      the list of acceptances. */
  datatype Phase = Credentialed | Verified | Authenticated(ticket: Option<nat>)

  /** A request being served. `payload` is the client version if the content type, the body and
      the protocol version are in order. */
  datatype InFlight = InFlight(request: Request, payload: Option<string>, secret: Credential, phase: Phase)

  /** A shutdown message whose nonce was spent, with the credential and the time then current. */
  datatype Acceptance = Acceptance(message: Message, current: Option<Credential>, at: nat)

  /** `admitted`, `inFlight` are the requests between steps. The rest is history: credentials ever
      drawn, shutdown messages accepted, and the tickets that reached the power controller. */
  datatype World = World(
    app: App,
    now: nat,
    admitted: set<RequestId>,
    inFlight: map<RequestId, InFlight>,
    issued: set<Credential>,
    accepted: seq<Acceptance>,
    delivered: seq<nat>)

  datatype Event =
    | Tick(nanos: nat)
    | Admit(id: RequestId)
    | OpenPairing(id: RequestId, source: Source, clientMessage: Bytes, exchange: Option<Exchange>, session: SessionId)
    | ConfirmPairing(sessionId: Bytes, confirmation: Bytes, credential: Credential, nonce: Bytes, saved: bool)
    | Generate(code: string, saved: bool)
    | ReadCredential(id: RequestId, request: Request, payload: Option<string>)
    | Verify(id: RequestId)
    | Spend(id: RequestId, saved: bool)
    | Dispatch(id: RequestId, saved: bool)
    | Restart(code: string)

  // ---------------------------------------------------------------- steps

  function Admitted(w: World, id: RequestId): World {
    if PairingAllowed(w.app) then w.(admitted := w.admitted + {id}) else w
  }

  function VerifyInFlight(site: Site, w: World, id: RequestId): World
    requires id in w.inFlight
  {
    var f := w.inFlight[id];
    var (auth, r) := VerifyRequest(w.app.auth, site.crypto, f.secret, f.request, Seconds(w.now));
    w.(app := w.app.(auth := auth),
       inFlight := if r.Ok? then w.inFlight[id := f.(phase := Verified)] else w.inFlight - {id})
  }

  function SpendInFlight(w: World, id: RequestId, saved: bool): World
    requires id in w.inFlight
  {
    var f := w.inFlight[id];
    var at := Seconds(w.now);
    var (app, r) := SpendNonce(w.app, at, f.request, saved);
    if r.Err? then w.(app := app, inFlight := w.inFlight - {id})
    else if f.request.path != SHUTDOWN then
      w.(app := app, inFlight := w.inFlight[id := f.(phase := Authenticated(None))])
    else
      var m := Message(f.secret, f.request.timestamp, f.request.nonce);
      w.(app := app,
         inFlight := w.inFlight[id := f.(phase := Authenticated(Some(|w.accepted|)))],
         accepted := w.accepted + [Acceptance(m, w.app.identity.credential, at)])
  }

  function Dispatched(w: World, id: RequestId, saved: bool): World
    requires id in w.inFlight && w.inFlight[id].phase.Authenticated?
  {
    var f := w.inFlight[id];
    if f.payload.None? then w.(inFlight := w.inFlight - {id})
    else
      w.(app := RecordVersion(w.app, f.payload.value, saved),
         inFlight := w.inFlight - {id},
         delivered := w.delivered + if f.phase.ticket.Some? then [f.phase.ticket.value] else [])
  }

  function Restarted(w: World, generated: string): World {
    var booted := Boot(w.app.disk, w.now, generated);
    if booted.None? then w else w.(app := booted.value, admitted := {}, inFlight := map[])
  }

  /** Whether an event can happen. Credentials are drawn fresh; generated codes have six digits. */
  predicate Enabled(w: World, e: Event) {
    match e
    case Tick(_) => true
    case Admit(id) => id !in w.admitted
    case OpenPairing(id, _, _, _, _) => id in w.admitted
    case ConfirmPairing(_, _, credential, _, _) => credential !in w.issued
    case Generate(code, _) => ValidCode(code)
    case ReadCredential(id, _, _) => id !in w.inFlight && w.app.identity.credential.Some?
    case Verify(id) => id in w.inFlight && w.inFlight[id].phase == Credentialed
    case Spend(id, _) => id in w.inFlight && w.inFlight[id].phase == Verified
    case Dispatch(id, _) => id in w.inFlight && w.inFlight[id].phase.Authenticated?
    case Restart(code) => ValidCode(code)
  }

  function Step(site: Site, w: World, e: Event): World
    requires Enabled(w, e)
  {
    match e
    case Tick(nanos) => w.(now := w.now + nanos)
    case Admit(id) => Admitted(w, id)
    case OpenPairing(id, source, clientMessage, exchange, session) =>
      w.(app := OpenSession(w.app, w.now, source, clientMessage, exchange, session).0, admitted := w.admitted - {id})
    case ConfirmPairing(session, confirmation, credential, nonce, saved) =>
      w.(app := FinishPairing(site, w.app, w.now, session, confirmation, credential, nonce, saved).0,
         issued := w.issued + {credential})
    case Generate(code, saved) => w.(app := GenerateCode(w.app, w.now, code, saved).0)
    case ReadCredential(id, request, payload) =>
      w.(inFlight := w.inFlight[id := InFlight(request, payload, w.app.identity.credential.value, Credentialed)])
    case Verify(id) => VerifyInFlight(site, w, id)
    case Spend(id, saved) => SpendInFlight(w, id, saved)
    case Dispatch(id, saved) => Dispatched(w, id, saved)
    case Restart(code) => Restarted(w, code)
  }

  /** Events that cannot happen leave the world alone, so every list of events is a run. */
  function Next(site: Site, w: World, e: Event): World {
    if Enabled(w, e) then Step(site, w, e) else w
  }

  function Run(site: Site, w: World, es: seq<Event>): World {
    if es == [] then w else Next(site, Run(site, w, es[..|es| - 1]), es[|es| - 1])
  }

  lemma RunStep(site: Site, w: World, es: seq<Event>, k: nat)
    requires k < |es|
    ensures Run(site, w, es[..k + 1]) == Next(site, Run(site, w, es[..k]), es[k])
  {
    assert es[..k + 1][..k] == es[..k];
  }

  lemma {:induction false} RunAppend(site: Site, w: World, a: seq<Event>, b: seq<Event>)
    ensures Run(site, w, a + b) == Run(site, Run(site, w, a), b)
  {
    if b == [] {
      assert a + b == a;
    } else {
      var n := |b| - 1;
      assert (a + b)[..|a| + n] == a + b[..n];
      RunAppend(site, w, a, b[..n]);
    }
  }

  /** First start of a fresh installation. */
  function Installed(hostId: Bytes, code: string, now: nat): World
    requires ValidCode(code)
  {
    World(Boot(DefaultIdentity(hostId, code, now), now, code).value, now, {}, map[], {}, [], [])
  }
}
