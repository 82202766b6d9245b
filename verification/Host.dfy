/** The host service: the identity in memory, its persisted copy, the live pairing code and the
    authenticator, and the handlers that update them. Every handler saves before it commits. */
module Host {
  import opened Common
  import opened Canonical
  import opened Authentication
  import opened Pairing
  import opened Versions

  const HOST_VERSION: string := "0.1.0"
  const PROTOCOL_VERSION: u32 := 1
  const SHUTDOWN: string := "/v1/shutdown"

  /** A shutdown nonce that must survive restarts. */
  datatype AcceptedNonce = AcceptedNonce(timestamp: nat, nonce: Bytes)

  datatype Identity = Identity(
    hostId: Bytes,
    credential: Option<Credential>,
    pairingCode: Option<string>,
    createdAt: nat,
    ledger: seq<AcceptedNonce>,
    lastClientVersion: Option<string>)

  /** What does not change while the service is installed. */
  datatype Site = Site(crypto: Crypto, hostname: Bytes)

  /** The contents of the running service. `disk` is the persisted identity. */
  datatype App = App(identity: Identity, disk: Identity, pairing: Code, auth: Auth, latest: Option<string>)

  /** The answer to a pair request; texts as UTF-8 bytes. */
  datatype PairResponse = PairResponse(
    hostMessage: Bytes, nonce: Bytes, ciphertext: Bytes, hostname: Bytes, hostVersion: Bytes,
    protocolVersion: nat, hostId: Bytes, sessionId: Bytes)

  datatype PairingState = PairingState(paired: bool, code: Option<string>, expiresIn: int)

  /** The answer to the confirming pair request. `Panicked` is the `expect` on commit failing. */
  datatype FinishReply = Paired(result: PairingResult) | PairRefused(error: PairingError) | SaveFailed | Panicked

  // ---------------------------------------------------------------- handlers on values

  /** Whole seconds since the epoch, as `now_unix` reads them. */
  function Seconds(now: nat): nat {
    now / SECOND
  }

  function DefaultIdentity(hostId: Bytes, code: string, now: nat): Identity {
    Identity(hostId, None, Some(code), Seconds(now), [], None)
  }

  function PersistedCodeAge(createdAt: nat, now: nat): nat {
    if createdAt == 0 || createdAt > now then 301 else now - createdAt
  }

  /** Start-up from the persisted identity; `generated` is used when no code is persisted.
      A persisted code that is not six digits stops the service from starting. */
  function Boot(disk: Identity, now: nat, generated: string): Option<App> {
    if disk.pairingCode.None? then Some(App(disk, disk, Generated(generated, now), FRESH, disk.lastClientVersion))
    else if !ValidCode(disk.pairingCode.value) then None
    else
      var age := PersistedCodeAge(disk.createdAt, Seconds(now)) * SECOND;
      Some(App(disk, disk, Aged(disk.pairingCode.value, age, now), FRESH, disk.lastClientVersion))
  }

  /** The already-paired check of a first pair request. */
  predicate PairingAllowed(a: App) {
    !(a.identity.credential.Some? && a.identity.pairingCode.None?)
  }

  function OpenSession(a: App, now: nat, source: Source, clientMessage: Bytes, exchange: Option<Exchange>,
                       session: SessionId)
    : (App, Result<PairingStart, PairingError>)
  {
    var (c, r) := Start(a.pairing, now, source, clientMessage, exchange, session);
    (a.(pairing := c), r)
  }

  function Context(site: Site, hostId: Bytes): CredentialContext {
    CredentialContext(site.hostname, Ascii(HOST_VERSION), PROTOCOL_VERSION, hostId)
  }

  /** The response to a first pair request that opened a session. */
  function StartResponse(site: Site, identity: Identity, started: PairingStart): PairResponse {
    PairResponse(started.hostMessage, [], [], site.hostname, Ascii(HOST_VERSION), PROTOCOL_VERSION, identity.hostId,
                 started.sessionId)
  }

  /** The response to a confirmation that succeeded. */
  function PairingResponse(site: Site, identity: Identity, session: Bytes, result: PairingResult): PairResponse {
    PairResponse(result.hostMessage, result.nonce, result.encryptedCredential, site.hostname, Ascii(HOST_VERSION),
                 PROTOCOL_VERSION, identity.hostId, session)
  }

  /** The confirming pair request. `saved` says whether persisting the identity succeeds. */
  function FinishPairing(site: Site, a: App, now: nat, session: Bytes, confirmation: Bytes,
                         credential: Credential, nonce: Bytes, saved: bool)
    : (App, FinishReply)
  {
    var wasCompleted := IsCompleted(a.pairing, session);
    var (c, r) := Finish(a.pairing, now, site.crypto, session, confirmation, Context(site, a.identity.hostId),
                         credential, nonce);
    if r.Err? then (a.(pairing := c), PairRefused(r.error))
    else if wasCompleted then (a.(pairing := c), Paired(r.value))
    else if !saved then (a.(pairing := c), SaveFailed)
    else
      var updated := a.identity.(credential := Some(r.value.credential), pairingCode := None, createdAt := 0,
                                 ledger := []);
      var (d, committed) := Commit(c, now, session, confirmation, r.value);
      (a.(identity := updated, disk := updated, pairing := d), if committed.Ok? then Paired(r.value) else Panicked)
  }

  function PairingStateOf(a: App, now: nat): PairingState {
    PairingState(
      a.identity.credential.Some?,
      if a.identity.pairingCode.Some? then Some(a.pairing.code) else None,
      ExpiresIn(a.pairing, now))
  }

  function GenerateCode(a: App, now: nat, code: string, saved: bool): (App, Option<PairingState>) {
    if !saved then (a, None)
    else
      var updated := a.identity.(pairingCode := Some(code), createdAt := Seconds(now));
      var b := a.(identity := updated, disk := updated, pairing := Generated(code, now));
      (b, Some(PairingState(updated.credential.Some?, updated.pairingCode, ExpiresIn(b.pairing, now))))
  }

  function Retained(ledger: seq<AcceptedNonce>, at: nat): seq<AcceptedNonce> {
    if ledger == [] then []
    else if SaturatingSub(at, ledger[0].timestamp) <= CLOCK_WINDOW then [ledger[0]] + Retained(ledger[1..], at)
    else Retained(ledger[1..], at)
  }

  ghost predicate Spends(ledger: seq<AcceptedNonce>, nonce: Bytes) {
    exists i :: 0 <= i < |ledger| && ledger[i].nonce == nonce
  }

  function HasNonce(ledger: seq<AcceptedNonce>, nonce: Bytes): (r: bool)
    ensures r <==> Spends(ledger, nonce)
  {
    ledger != [] && (ledger[0].nonce == nonce || HasNonce(ledger[1..], nonce))
  }

  /** The last critical section of `authenticate`: shutdown nonces are checked against the
      persisted ledger and recorded in it. The credential is not looked at again. */
  function SpendNonce(a: App, at: nat, q: Request, saved: bool): (App, Result<(), AuthError>) {
    if q.path != SHUTDOWN then (a, Ok(()))
    else
      var kept := Retained(a.identity.ledger, at);
      var pruned := a.identity.(ledger := kept);
      if HasNonce(kept, q.nonce) then (a.(identity := pruned), Err(Replay))
      else if !saved then (a.(identity := pruned), Err(Persistence))
      else
        var updated := a.identity.(ledger := kept + [AcceptedNonce(q.timestamp, q.nonce)]);
        (a.(identity := updated, disk := updated), Ok(()))
  }

  function RecordVersion(a: App, version: string, saved: bool): App {
    if HostCompare(version, HOST_VERSION) == Unknown then a
    else if a.latest == Some(version) then a
    else if a.identity.lastClientVersion == Some(version) || !saved then a.(latest := Some(version))
    else
      var updated := a.identity.(lastClientVersion := Some(version));
      a.(identity := updated, disk := updated, latest := Some(version))
  }

  // ---------------------------------------------------------------- the mutable service

  /** The persisted record. A save takes full effect or fails without one. */
  class CredentialStore {
    var record: Identity

    constructor (initial: Identity)
      ensures record == initial
    {
      record := initial;
    }

    method Save(identity: Identity, succeeds: bool) returns (ok: bool)
      modifies this
      ensures ok == succeeds
      ensures record == if ok then identity else old(record)
    {
      if succeeds {
        record := identity;
      }
      return succeeds;
    }
  }

  class AppState {
    const site: Site
    var identity: Identity
    var pairing: PairingCode
    const authenticator: Authenticator
    const store: CredentialStore
    var latestClientVersion: Option<string>

    ghost function View(): App
      reads this, pairing, authenticator, store
    {
      App(identity, store.record, pairing.View(), authenticator.View(), latestClientVersion)
    }

    constructor (s: Site, disk: CredentialStore, code: PairingCode)
      ensures site == s && store == disk && pairing == code && fresh(authenticator)
      ensures authenticator.crypto == s.crypto
      ensures View() == App(disk.record, disk.record, code.View(), FRESH, disk.record.lastClientVersion)
    {
      site, store, pairing := s, disk, code;
      identity := disk.record;
      latestClientVersion := disk.record.lastClientVersion;
      authenticator := new Authenticator(s.crypto);
    }

    static method StartService(site: Site, store: CredentialStore, now: nat, generated: string)
      returns (r: Option<AppState>)
      ensures r.Some? <==> Boot(store.record, now, generated).Some?
      ensures r.Some? ==>
                && fresh(r.value) && r.value.store == store
                && r.value.View() == Boot(store.record, now, generated).value
    {
      var code: PairingCode;
      if store.record.pairingCode.Some? {
        var age := PersistedCodeAge(store.record.createdAt, Seconds(now));
        var loaded := PairingCode.FromCodeWithAge(store.record.pairingCode.value, age * SECOND, now);
        if loaded.Err? {
          return None;
        }
        code := loaded.value;
      } else {
        code := new PairingCode.Generate(generated, now);
      }
      var state := new AppState(site, store, code);
      return Some(state);
    }

    method PairStart(now: nat, source: Source, clientMessage: Bytes, exchange: Option<Exchange>, session: SessionId)
      returns (r: Result<PairingStart, PairingError>)
      modifies pairing
      ensures (View(), r) == OpenSession(old(View()), now, source, clientMessage, exchange, session)
    {
      r := pairing.StartForSource(now, source, clientMessage, exchange, session);
    }

    method PairFinish(now: nat, session: Bytes, confirmation: Bytes, credential: Credential, nonce: Bytes,
                      saveSucceeds: bool)
      returns (r: FinishReply)
      modifies this`identity, pairing, store
      ensures (View(), r) == FinishPairing(site, old(View()), now, session, confirmation, credential, nonce,
                                           saveSucceeds)
    {
      var hostId := identity.hostId;
      var wasCompleted := |session| == 16 && session in pairing.completed;
      var result := pairing.FinishSession(site.crypto, now, session, confirmation, Context(site, hostId), credential,
                                          nonce);
      if result.Err? {
        return PairRefused(result.error);
      }
      if wasCompleted {
        return Paired(result.value);
      }
      var previous := identity;
      identity := identity.(credential := Some(result.value.credential));
      identity := identity.(pairingCode := None);
      identity := identity.(createdAt := 0);
      identity := identity.(ledger := []);
      var ok := store.Save(identity, saveSucceeds);
      if !ok {
        identity := previous;
        return SaveFailed;
      }
      var committed := pairing.CommitSession(now, session, confirmation, result.value);
      if committed.Err? {
        return Panicked;
      }
      return Paired(result.value);
    }

    method GeneratePairingCode(now: nat, code: string, saveSucceeds: bool) returns (r: Option<PairingState>)
      modifies this`identity, this`pairing, store
      ensures (View(), r) == GenerateCode(old(View()), now, code, saveSucceeds)
      ensures pairing == old(pairing) || fresh(pairing)
    {
      var generated := new PairingCode.Generate(code, now);
      var updated := identity.(pairingCode := Some(generated.code), createdAt := Seconds(now));
      var ok := store.Save(updated, saveSucceeds);
      if !ok {
        return None;
      }
      identity := updated;
      pairing := generated;
      var left := now - pairing.created;
      left := if left < PAIRING_LIFETIME then PAIRING_LIFETIME - left else 0;
      return Some(PairingState(identity.credential.Some?, identity.pairingCode, left));
    }

    method AuthenticateSignature(secret: Credential, q: Request, now: nat) returns (r: Result<(), AuthError>)
      requires authenticator.crypto == site.crypto
      modifies authenticator
      ensures var (auth, reply) := VerifyRequest(old(View()).auth, site.crypto, secret, q, now);
              View() == old(View()).(auth := auth) && r == reply
    {
      r := authenticator.Verify(secret, q, now);
    }

    method SpendShutdownNonce(at: nat, q: Request, saveSucceeds: bool) returns (r: Result<(), AuthError>)
      modifies this`identity, store
      ensures (View(), r) == SpendNonce(old(View()), at, q, saveSucceeds)
    {
      if q.path != SHUTDOWN {
        return Ok(());
      }
      identity := identity.(ledger := Retained(identity.ledger, at));
      if HasNonce(identity.ledger, q.nonce) {
        return Err(AuthError.Replay);
      }
      identity := identity.(ledger := identity.ledger + [AcceptedNonce(q.timestamp, q.nonce)]);
      var ok := store.Save(identity, saveSucceeds);
      if !ok {
        var n := |identity.ledger|;
        identity := identity.(ledger := identity.ledger[..n - 1]);
        return Err(AuthError.Persistence);
      }
      return Ok(());
    }

    method RecordClientVersion(version: string, saveSucceeds: bool)
      modifies this`identity, this`latestClientVersion, store
      ensures View() == RecordVersion(old(View()), version, saveSucceeds)
    {
      if HostCompare(version, HOST_VERSION) == Unknown || latestClientVersion == Some(version) {
        return;
      }
      if identity.lastClientVersion != Some(version) {
        var updated := identity.(lastClientVersion := Some(version));
        var ok := store.Save(updated, saveSucceeds);
        if ok {
          identity := updated;
        }
      }
      latestClientVersion := Some(version);
    }
  }
}
