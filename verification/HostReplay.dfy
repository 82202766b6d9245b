/** Replay of shutdown messages: when a signed message can reach the power controller twice. */
module HostReplay {
  import opened Common
  import opened Canonical
  import opened Authentication
  import opened Pairing
  import opened Host
  import opened HostRuns
  import opened HostState

  /** By the time the nonce was spent, the credential had been replaced or the clock window had
      passed. `authenticate` checks both earlier, under locks it has released since. */
  predicate Late(a: Acceptance) {
    a.current != Some(a.message.credential) || a.at > a.message.timestamp + CLOCK_WINDOW
  }

  // ---------------------------------------------------------------- the ledger and the history

  /** Every credential in use or in the history was drawn at some point. */
  ghost predicate OnlyIssued(w: World) {
    && (w.app.identity.credential.Some? ==> w.app.identity.credential.value in w.issued)
    && (forall id :: id in w.inFlight ==> w.inFlight[id].secret in w.issued)
    && (forall i :: 0 <= i < |w.accepted| ==> DrawnBefore(w, w.accepted[i]))
  }

  predicate DrawnBefore(w: World, a: Acceptance) {
    a.message.credential in w.issued && (a.current.Some? ==> a.current.value in w.issued)
  }

  /** The ledger entry of an acceptance. */
  function Entry(a: Acceptance): AcceptedNonce {
    AcceptedNonce(a.message.timestamp, a.message.nonce)
  }

  /** The acceptance happened under the credential still in use. */
  predicate UnderCurrent(w: World, a: Acceptance) {
    a.current == w.app.identity.credential
  }

  /** The acceptance still counts against its nonce. */
  predicate Counts(w: World, a: Acceptance) {
    UnderCurrent(w, a) && Seconds(w.now) <= a.message.timestamp + CLOCK_WINDOW
  }

  /** Memory's ledger holds every acceptance that still counts. */
  ghost predicate Remembers(w: World) {
    forall i :: 0 <= i < |w.accepted| && Counts(w, w.accepted[i]) ==> Entry(w.accepted[i]) in w.app.identity.ledger
  }

  ghost predicate Explained(w: World, x: AcceptedNonce) {
    exists i :: 0 <= i < |w.accepted| && UnderCurrent(w, w.accepted[i]) && Entry(w.accepted[i]) == x
  }

  /** The persisted ledger holds nothing but acceptances under the credential in use. */
  ghost predicate OnlyAccepted(w: World) {
    forall x :: x in w.app.disk.ledger ==> Explained(w, x)
  }

  /** A credential is never in use again after it was replaced. */
  ghost predicate NeverBack(w: World) {
    forall i :: 0 <= i < |w.accepted| && w.app.identity.credential == Some(w.accepted[i].message.credential) ==>
      UnderCurrent(w, w.accepted[i])
  }

  /** A message accepted a second time was late. */
  ghost predicate RepeatsAreLate(accepted: seq<Acceptance>) {
    forall i, j :: 0 <= i < j < |accepted| && accepted[i].message == accepted[j].message ==> Late(accepted[j])
  }

  ghost predicate Guarded(w: World) {
    OnlyIssued(w) && Remembers(w) && OnlyAccepted(w) && NeverBack(w) && RepeatsAreLate(w.accepted)
  }

  // ---------------------------------------------------------------- exactly when a nonce is spent

  /** An acceptance that stops a nonce from being spent now. */
  ghost predicate Blocked(w: World, nonce: Bytes) {
    exists i :: 0 <= i < |w.accepted| && w.accepted[i].message.nonce == nonce && Counts(w, w.accepted[i])
  }

  lemma HasNonceOf(ledger: seq<AcceptedNonce>, x: AcceptedNonce)
    requires x in ledger
    ensures HasNonce(ledger, x.nonce)
  {
    var i :| 0 <= i < |ledger| && ledger[i] == x;
    assert ledger[i].nonce == x.nonce;
  }

  /** What the ledger refuses is what the history blocks. */
  lemma LedgerIsHistory(w: World, nonce: Bytes)
    requires Persisted(w) && Remembers(w) && OnlyAccepted(w)
    ensures HasNonce(Retained(w.app.identity.ledger, Seconds(w.now)), nonce) <==> Blocked(w, nonce)
  {
    var ledger, at := w.app.identity.ledger, Seconds(w.now);
    var kept := Retained(ledger, at);
    if HasNonce(kept, nonce) {
      var k :| 0 <= k < |kept| && kept[k].nonce == nonce;
      RetainedMembers(ledger, at, kept[k]);
      MemoryMatchesDisk(w, kept[k]);
      assert Explained(w, kept[k]);
    }
    if Blocked(w, nonce) {
      var i :| 0 <= i < |w.accepted| && w.accepted[i].message.nonce == nonce && Counts(w, w.accepted[i]);
      RetainedMembers(ledger, at, Entry(w.accepted[i]));
      HasNonceOf(kept, Entry(w.accepted[i]));
    }
  }

  // ---------------------------------------------------------------- events that spend nothing

  lemma OtherRequests(site: Site, w: World, e: Event)
    requires Enabled(w, e) && !e.Spend?
    ensures var v := Step(site, w, e);
            && v.accepted == w.accepted && w.now <= v.now && w.issued <= v.issued
            && forall id :: id in v.inFlight ==>
                 || (id in w.inFlight && v.inFlight[id].secret == w.inFlight[id].secret)
                 || w.app.identity.credential == Some(v.inFlight[id].secret)
  {
  }

  /** Credential and ledger are as before, or memory and disk hold one of the two ledgers. */
  ghost predicate KeepsLedger(a: App, b: App) {
    && b.identity.credential == a.identity.credential
    && b.identity.ledger in {a.identity.ledger, a.disk.ledger}
    && b.disk.ledger in {a.identity.ledger, a.disk.ledger}
  }

  /** The ledgers were cleared for a credential drawn just now. */
  ghost predicate Replaced(w: World, v: World) {
    && v.app.identity.credential.Some? && v.app.identity.credential.value !in w.issued
    && v.app.identity.credential.value in v.issued && v.app.disk.ledger == []
  }

  lemma ConfirmLedger(site: Site, w: World, e: Event)
    requires Reliable(w) && Enabled(w, e) && e.ConfirmPairing?
    ensures var v := Step(site, w, e);
            KeepsLedger(w.app, v.app) || Replaced(w, v)
  {
    ConfirmStep(site, w, e);
  }

  /** Only a committed pairing clears the ledger. */
  lemma OtherLedger(site: Site, w: World, e: Event)
    requires Reliable(w) && Enabled(w, e) && !e.Spend?
    ensures var v := Step(site, w, e);
            KeepsLedger(w.app, v.app) || Replaced(w, v)
  {
    if e.ConfirmPairing? {
      ConfirmLedger(site, w, e);
    } else if e.Dispatch? {
      DispatchLedger(w, e.id, e.saved);
    } else if e.Generate? || e.Restart? {
      ReplacedLedger(site, w, e);
    }
  }

  lemma DispatchLedger(w: World, id: RequestId, saved: bool)
    requires id in w.inFlight && w.inFlight[id].phase.Authenticated?
    ensures KeepsLedger(w.app, Dispatched(w, id, saved).app)
  {
  }

  lemma ReplacedLedger(site: Site, w: World, e: Event)
    requires Persisted(w) && Enabled(w, e) && (e.Generate? || e.Restart?)
    ensures KeepsLedger(w.app, Step(site, w, e).app)
  {
  }

  lemma GuardedKept(w: World, v: World)
    requires Persisted(w) && Guarded(w) && KeepsLedger(w.app, v.app)
    requires v.accepted == w.accepted && w.now <= v.now
    ensures Remembers(v) && OnlyAccepted(v) && NeverBack(v)
  {
    forall i | 0 <= i < |v.accepted| && Counts(v, v.accepted[i]) ensures Entry(v.accepted[i]) in v.app.identity.ledger {
      assert Counts(w, w.accepted[i]);
      MemoryMatchesDisk(w, Entry(w.accepted[i]));
    }
    forall x | x in v.app.disk.ledger ensures Explained(v, x) {
      MemoryMatchesDisk(w, x);
      assert Explained(w, x);
    }
  }

  lemma GuardedOther(site: Site, w: World, e: Event)
    requires Reliable(w) && Guarded(w) && Enabled(w, e) && !e.Spend?
    ensures Guarded(Step(site, w, e))
  {
    OtherRequests(site, w, e);
    OtherLedger(site, w, e);
    var v := Step(site, w, e);
    if KeepsLedger(w.app, v.app) {
      GuardedKept(w, v);
    }
  }

  // ---------------------------------------------------------------- spending a nonce

  /** The app after a refused nonce has at most lost entries out of the window. */
  lemma SpendRefused(w: World, v: World)
    requires Guarded(w) && v.accepted == w.accepted && v.now == w.now && v.app.disk == w.app.disk
    requires v.app.identity == w.app.identity.(ledger := v.app.identity.ledger)
    requires v.app.identity.ledger in {w.app.identity.ledger, Retained(w.app.identity.ledger, Seconds(w.now))}
    ensures Remembers(v) && OnlyAccepted(v) && NeverBack(v)
  {
    forall i | 0 <= i < |v.accepted| && Counts(v, v.accepted[i]) ensures Entry(v.accepted[i]) in v.app.identity.ledger {
      assert Counts(w, w.accepted[i]);
      RetainedMembers(w.app.identity.ledger, Seconds(w.now), Entry(w.accepted[i]));
    }
    forall x | x in v.app.disk.ledger ensures Explained(v, x) {
      assert Explained(w, x);
    }
  }

  /** The app after an accepted nonce. */
  lemma SpendAccepted(w: World, v: World, a: Acceptance)
    requires Persisted(w) && Guarded(w) && v.accepted == w.accepted + [a] && v.now == w.now && UnderCurrent(w, a)
    requires v.app.identity.credential == w.app.identity.credential && v.app.disk == v.app.identity
    requires v.app.identity.ledger == Retained(w.app.identity.ledger, Seconds(w.now)) + [Entry(a)]
    ensures Remembers(v) && OnlyAccepted(v) && NeverBack(v)
  {
    var kept := Retained(w.app.identity.ledger, Seconds(w.now));
    forall i | 0 <= i < |v.accepted| && Counts(v, v.accepted[i]) ensures Entry(v.accepted[i]) in v.app.identity.ledger {
      if i < |w.accepted| {
        assert Counts(w, w.accepted[i]);
        RetainedMembers(w.app.identity.ledger, Seconds(w.now), Entry(w.accepted[i]));
      }
    }
    forall x | x in v.app.disk.ledger ensures Explained(v, x) {
      if x == Entry(a) {
        assert v.accepted[|w.accepted|] == a;
      } else {
        RetainedMembers(w.app.identity.ledger, Seconds(w.now), x);
        MemoryMatchesDisk(w, x);
        assert Explained(w, x);
        var i :| 0 <= i < |w.accepted| && UnderCurrent(w, w.accepted[i]) && Entry(w.accepted[i]) == x;
        assert v.accepted[i] == w.accepted[i];
      }
    }
  }

  /** A repeated message that is not late would have been blocked. */
  lemma RepeatIsLate(w: World, a: Acceptance)
    requires NeverBack(w) && RepeatsAreLate(w.accepted)
    requires UnderCurrent(w, a) && a.at == Seconds(w.now) && !Blocked(w, a.message.nonce)
    ensures RepeatsAreLate(w.accepted + [a])
  {
    forall i | 0 <= i < |w.accepted| && w.accepted[i].message == a.message ensures Late(a) {
      assert !Counts(w, w.accepted[i]);
    }
  }

  lemma GuardedSpend(w: World, id: RequestId, saved: bool)
    requires Persisted(w) && Guarded(w) && id in w.inFlight
    ensures Guarded(SpendInFlight(w, id, saved))
  {
    var f, at, v := w.inFlight[id], Seconds(w.now), SpendInFlight(w, id, saved);
    LedgerIsHistory(w, f.request.nonce);
    if v.accepted == w.accepted {
      SpendRefused(w, v);
    } else {
      var a := Acceptance(Message(f.secret, f.request.timestamp, f.request.nonce), w.app.identity.credential, at);
      SpendAccepted(w, v, a);
      RepeatIsLate(w, a);
    }
  }

  // ---------------------------------------------------------------- tickets

  /** Each acceptance is dispatched to the power controller at most once. */
  ghost predicate Tickets(w: World) {
    && (forall i :: 0 <= i < |w.delivered| ==> w.delivered[i] < |w.accepted|)
    && (forall i, j :: 0 <= i < j < |w.delivered| ==> w.delivered[i] != w.delivered[j])
    && (forall id :: id in w.inFlight && Holds(w.inFlight[id]) ==>
          w.inFlight[id].phase.ticket.value < |w.accepted| && w.inFlight[id].phase.ticket.value !in w.delivered)
    && (forall a, b :: a in w.inFlight && b in w.inFlight && a != b && Holds(w.inFlight[a]) && Holds(w.inFlight[b]) ==>
          w.inFlight[a].phase.ticket != w.inFlight[b].phase.ticket)
  }

  predicate Holds(f: InFlight) {
    f.phase.Authenticated? && f.phase.ticket.Some?
  }

  lemma TicketsStep(site: Site, w: World, e: Event)
    requires Tickets(w) && Enabled(w, e)
    ensures Tickets(Step(site, w, e))
  {
    if e.Spend? {
      TicketsSpend(w, e.id, e.saved);
    } else if e.Dispatch? {
      TicketsDispatch(w, e.id, e.saved);
    } else {
      var v := Step(site, w, e);
      assert forall id :: id in v.inFlight && Holds(v.inFlight[id]) ==>
               id in w.inFlight && v.inFlight[id] == w.inFlight[id];
    }
  }

  lemma TicketsSpend(w: World, id: RequestId, saved: bool)
    requires Tickets(w) && id in w.inFlight
    ensures Tickets(SpendInFlight(w, id, saved))
  {
    var v := SpendInFlight(w, id, saved);
    assert forall a :: a in v.inFlight && a != id ==> a in w.inFlight && v.inFlight[a] == w.inFlight[a];
  }

  lemma TicketsDispatch(w: World, id: RequestId, saved: bool)
    requires Tickets(w) && id in w.inFlight && w.inFlight[id].phase.Authenticated?
    ensures Tickets(Dispatched(w, id, saved))
  {
    var v := Dispatched(w, id, saved);
    assert forall a :: a in v.inFlight ==> a != id && a in w.inFlight && v.inFlight[a] == w.inFlight[a];
  }

  // ---------------------------------------------------------------- every run

  ghost predicate Accountable(w: World) {
    Reliable(w) && Guarded(w) && Tickets(w)
  }

  lemma AccountableStep(site: Site, w: World, e: Event)
    requires Accountable(w)
    ensures Accountable(Next(site, w, e))
  {
    ReliableStep(site, w, e);
    if Enabled(w, e) {
      TicketsStep(site, w, e);
      if e.Spend? {
        GuardedSpend(w, e.id, e.saved);
      } else {
        GuardedOther(site, w, e);
      }
    }
  }

  lemma {:induction false} AlwaysAccountable(site: Site, hostId: Bytes, code: string, t: nat, es: seq<Event>)
    requires ValidCode(code)
    ensures Accountable(Run(site, Installed(hostId, code, t), es))
  {
    if es == [] {
      InstalledIsReliable(hostId, code, t);
    } else {
      AlwaysAccountable(site, hostId, code, t, es[..|es| - 1]);
      AccountableStep(site, Run(site, Installed(hostId, code, t), es[..|es| - 1]), es[|es| - 1]);
    }
  }

  /** The request has passed verification and asks for a shutdown. */
  predicate Waits(w: World, id: RequestId) {
    id in w.inFlight && w.inFlight[id].phase == Verified && w.inFlight[id].request.path == SHUTDOWN
  }

  /** In every run, exactly when a verified shutdown request is accepted: its nonce can be saved, and no
      earlier acceptance carries that nonce, was made under the credential now in use, and is stamped
      inside the window. The credential and the timestamp of the request itself play no part. */
  lemma SpendAcceptsIff(site: Site, hostId: Bytes, code: string, t: nat, es: seq<Event>, id: RequestId, saved: bool)
    requires ValidCode(code)
    ensures var w := Run(site, Installed(hostId, code, t), es);
            Waits(w, id) ==>
              (|Next(site, w, Spend(id, saved)).accepted| > |w.accepted|
               <==> saved && !Blocked(w, w.inFlight[id].request.nonce))
  {
    AlwaysAccountable(site, hostId, code, t, es);
    var w := Run(site, Installed(hostId, code, t), es);
    if Waits(w, id) {
      LedgerIsHistory(w, w.inFlight[id].request.nonce);
      SpendOutcome(site, w, id, saved);
    }
  }

  /** In every run, what becomes of any verified request. It is authenticated exactly if it is not a
      shutdown, or its nonce can be saved and is not blocked. Requests that are not shutdowns leave the
      identity, the disk and the history alone, whatever a save would do. */
  lemma SpendIff(site: Site, hostId: Bytes, code: string, t: nat, es: seq<Event>, id: RequestId, saved: bool)
    requires ValidCode(code)
    ensures var w := Run(site, Installed(hostId, code, t), es);
            id in w.inFlight && w.inFlight[id].phase == Verified ==>
              var v, f := Next(site, w, Spend(id, saved)), w.inFlight[id];
              var blocked := f.request.path == "/v1/shutdown" && Blocked(w, f.request.nonce);
              && (id in v.inFlight <==> f.request.path != "/v1/shutdown" || (saved && !blocked))
              && (id in v.inFlight ==>
                    v.inFlight[id] == f.(phase := Authenticated(if f.request.path != "/v1/shutdown" then None
                                                                else Some(|w.accepted|))))
              && (f.request.path != "/v1/shutdown" ==> v == w.(inFlight := v.inFlight))
              && (f.request.path == "/v1/shutdown" ==> LedgerAfter(w, v, f.request, id in v.inFlight))
              && (SpendReply(w, id, saved) == Err(Replay) <==> blocked)
              && (SpendReply(w, id, saved) == Err(Persistence)
                  <==> f.request.path == "/v1/shutdown" && !blocked && !saved)
  {
    AlwaysAccountable(site, hostId, code, t, es);
    var w := Run(site, Installed(hostId, code, t), es);
    if id in w.inFlight && w.inFlight[id].phase == Verified {
      LedgerIsHistory(w, w.inFlight[id].request.nonce);
      SpendResult(site, w, id, saved);
    }
  }

  /** Memory keeps the entries still in the window, in order, and gains one for an accepted request; that,
      and only that, reaches the disk. */
  ghost predicate LedgerAfter(w: World, v: World, q: Request, accepted: bool) {
    var kept := Retained(w.app.identity.ledger, Seconds(w.now));
    && v.app.identity
       == w.app.identity.(ledger := if accepted then kept + [AcceptedNonce(q.timestamp, q.nonce)] else kept)
    && v.app.disk == if accepted then v.app.identity else w.app.disk
  }

  /** The answer of the last part of `authenticate`. */
  function SpendReply(w: World, id: RequestId, saved: bool): Result<(), AuthError>
    requires id in w.inFlight
  {
    SpendNonce(w.app, Seconds(w.now), w.inFlight[id].request, saved).1
  }

  lemma SpendResult(site: Site, w: World, id: RequestId, saved: bool)
    requires id in w.inFlight && w.inFlight[id].phase == Verified
    ensures var v, f := Next(site, w, Spend(id, saved)), w.inFlight[id];
            var shutdown := f.request.path == "/v1/shutdown";
            var refused := shutdown && HasNonce(Retained(w.app.identity.ledger, Seconds(w.now)), f.request.nonce);
            && (id in v.inFlight <==> !shutdown || (saved && !refused))
            && (id in v.inFlight ==>
                  v.inFlight[id] == f.(phase := Authenticated(if shutdown then Some(|w.accepted|) else None)))
            && (!shutdown ==> v == w.(inFlight := v.inFlight))
            && (shutdown ==> LedgerAfter(w, v, f.request, id in v.inFlight))
            && (SpendReply(w, id, saved) == Err(Replay) <==> refused)
            && (SpendReply(w, id, saved) == Err(Persistence) <==> shutdown && !refused && !saved)
  {
  }

  lemma SpendOutcome(site: Site, w: World, id: RequestId, saved: bool)
    requires Waits(w, id)
    ensures var kept := Retained(w.app.identity.ledger, Seconds(w.now));
            |Next(site, w, Spend(id, saved)).accepted| > |w.accepted|
            <==> saved && !HasNonce(kept, w.inFlight[id].request.nonce)
  {
  }

  /** The message that delivery number `i` carried. */
  function DeliveredMessage(w: World, i: nat): Message
    requires i < |w.delivered| && w.delivered[i] < |w.accepted|
  {
    w.accepted[w.delivered[i]].message
  }

  /** In every run of requests, failed saves, re-pairings and restarts, two deliveries of the same
      signed message are two acceptances of it, and the later acceptance was late. */
  lemma RepeatedDeliveryIsLate(site: Site, hostId: Bytes, code: string, t: nat, es: seq<Event>, i: nat, j: nat)
    requires ValidCode(code)
    ensures var w := Run(site, Installed(hostId, code, t), es);
            i < j < |w.delivered| ==>
              && w.delivered[i] < |w.accepted| && w.delivered[j] < |w.accepted| && w.delivered[i] != w.delivered[j]
              && (DeliveredMessage(w, i) == DeliveredMessage(w, j) ==>
                    Late(w.accepted[if w.delivered[i] < w.delivered[j] then w.delivered[j] else w.delivered[i]]))
  {
    AlwaysAccountable(site, hostId, code, t, es);
  }

  /** Deliveries after the first `m`, and tickets still held, are of acceptances from number `n` on. */
  ghost predicate OnlyNew(w: World, m: nat, n: nat) {
    && m <= |w.delivered| && n <= |w.accepted|
    && (forall i :: m <= i < |w.delivered| ==> n <= w.delivered[i])
    && (forall id :: id in w.inFlight && Holds(w.inFlight[id]) ==> n <= w.inFlight[id].phase.ticket.value)
  }

  lemma OnlyNewStep(site: Site, w: World, e: Event, m: nat, n: nat)
    requires OnlyNew(w, m, n)
    ensures OnlyNew(Next(site, w, e), m, n)
  {
    var v := Next(site, w, e);
    if Enabled(w, e) && !e.Spend? && !e.Dispatch? {
      OtherRequests(site, w, e);
      assert forall id :: id in v.inFlight && Holds(v.inFlight[id]) ==>
               id in w.inFlight && v.inFlight[id] == w.inFlight[id];
    }
  }

  lemma {:induction false} OnlyNewRun(site: Site, w: World, es: seq<Event>, m: nat, n: nat)
    requires OnlyNew(w, m, n)
    ensures OnlyNew(Run(site, w, es), m, n)
  {
    if es != [] {
      var k := |es| - 1;
      OnlyNewRun(site, w, es[..k], m, n);
      OnlyNewStep(site, Run(site, w, es[..k]), es[k], m, n);
    }
  }

  /** In every run, a shutdown that was accepted but not delivered before a restart is never delivered after
      it. */
  lemma RestartForgets(site: Site, hostId: Bytes, code: string, t: nat, before: seq<Event>, generated: string,
                       es: seq<Event>, i: nat)
    requires ValidCode(code) && ValidCode(generated)
    ensures var w := Run(site, Installed(hostId, code, t), before);
            var v := Run(site, Next(site, w, Restart(generated)), es);
            |w.delivered| <= i < |v.delivered| ==> |w.accepted| <= v.delivered[i]
  {
    AlwaysReliable(site, hostId, code, t, before);
    var w := Run(site, Installed(hostId, code, t), before);
    var r := Next(site, w, Restart(generated));
    RestartEmpties(site, w, generated);
    OnlyNewRun(site, r, es, |w.delivered|, |w.accepted|);
  }

  lemma RestartEmpties(site: Site, w: World, generated: string)
    requires Persisted(w) && Shown(w) && ValidCode(generated)
    ensures var r := Next(site, w, Restart(generated));
            r.inFlight == map[] && r.delivered == w.delivered && r.accepted == w.accepted
  {
  }

  // ---------------------------------------------------------------- atomic authentication

  /** No event falls between the three parts of `authenticate`. */
  predicate Atomic(es: seq<Event>) {
    if es == [] then true
    else
      var n := |es| - 1;
      if es[n].Spend? then
        n >= 2 && es[n - 1] == Verify(es[n].id) && es[n - 2].ReadCredential? && es[n - 2].id == es[n].id
        && Atomic(es[..n - 2])
      else !es[n].Verify? && !es[n].ReadCredential? && Atomic(es[..n])
  }

  /** Between atomic authentications nothing is half authenticated, and nothing was accepted late. */
  ghost predicate Prompt(w: World) {
    && (forall id :: id in w.inFlight ==> w.inFlight[id].phase.Authenticated?)
    && (forall i :: 0 <= i < |w.accepted| ==> !Late(w.accepted[i]))
  }

  lemma PromptOther(site: Site, w: World, e: Event)
    requires Prompt(w) && !e.Spend? && !e.Verify? && !e.ReadCredential?
    ensures Prompt(Next(site, w, e))
  {
  }

  /** Verification right after the credential was read leaves a request that is in time, or none. */
  lemma PromptVerified(site: Site, w: World, read: Event)
    requires read.ReadCredential? && Enabled(w, read)
    ensures var u := Next(site, Next(site, w, read), Verify(read.id));
            && u.app.identity == w.app.identity && u.now == w.now && u.accepted == w.accepted
            && u.inFlight - {read.id} == w.inFlight
            && (read.id in u.inFlight ==>
                  && u.inFlight[read.id]
                     == InFlight(read.request, read.payload, w.app.identity.credential.value, Verified)
                  && InWindow(Seconds(w.now), read.request.timestamp))
  {
    var v := Next(site, w, read);
    assert Next(site, v, Verify(read.id)) == VerifyInFlight(site, v, read.id);
    assert v.inFlight - {read.id} == w.inFlight;
  }

  lemma PromptSpent(u: World, id: RequestId, saved: bool)
    requires id in u.inFlight && (forall i :: 0 <= i < |u.accepted| ==> !Late(u.accepted[i]))
    requires forall x :: x in u.inFlight && x != id ==> u.inFlight[x].phase.Authenticated?
    requires u.app.identity.credential == Some(u.inFlight[id].secret)
    requires InWindow(Seconds(u.now), u.inFlight[id].request.timestamp)
    ensures Prompt(SpendInFlight(u, id, saved))
  {
  }

  lemma PromptAuthentication(site: Site, w: World, read: Event, spend: Event)
    requires Prompt(w) && read.ReadCredential? && spend.Spend? && spend.id == read.id
    ensures Prompt(Next(site, Next(site, Next(site, w, read), Verify(read.id)), spend))
  {
    var id := read.id;
    if !Enabled(w, read) {
      assert Next(site, w, read) == w && Next(site, w, Verify(id)) == w && Next(site, w, spend) == w;
    } else {
      var u := Next(site, Next(site, w, read), Verify(id));
      PromptVerified(site, w, read);
      assert forall x :: x in u.inFlight && x != id ==> x in u.inFlight - {id} && u.inFlight[x] == w.inFlight[x];
      if id in u.inFlight {
        PromptSpent(u, id, spend.saved);
      } else {
        assert Next(site, u, spend) == u;
      }
    }
  }

  lemma {:induction false} AtomicIsPrompt(site: Site, hostId: Bytes, code: string, t: nat, es: seq<Event>)
    requires ValidCode(code) && Atomic(es)
    ensures Prompt(Run(site, Installed(hostId, code, t), es))
    decreases |es|
  {
    if es != [] {
      var n, w := |es| - 1, Installed(hostId, code, t);
      if es[n].Spend? {
        AtomicIsPrompt(site, hostId, code, t, es[..n - 2]);
        PromptAuthentication(site, Run(site, w, es[..n - 2]), es[n - 2], es[n]);
        RunStep(site, w, es, n - 2);
        RunStep(site, w, es, n - 1);
        assert es[..n - 2 + 1] == es[..n - 1] && es[..n - 1 + 1] == es[..n];
      } else {
        AtomicIsPrompt(site, hostId, code, t, es[..n]);
        PromptOther(site, Run(site, w, es[..n]), es[n]);
      }
    }
  }

  /** When each authentication runs without interruption, every signed shutdown message reaches the
      power controller at most once, over all restarts, failed saves and re-pairings. */
  lemma AtMostOnce(site: Site, hostId: Bytes, code: string, t: nat, es: seq<Event>, i: nat, j: nat)
    requires ValidCode(code) && Atomic(es)
    ensures var w := Run(site, Installed(hostId, code, t), es);
            i < j < |w.delivered| ==>
              && w.delivered[i] < |w.accepted| && w.delivered[j] < |w.accepted|
              && DeliveredMessage(w, i) != DeliveredMessage(w, j)
  {
    AlwaysAccountable(site, hostId, code, t, es);
    AtomicIsPrompt(site, hostId, code, t, es);
  }

  // ---------------------------------------------------------------- interrupted authentication

  /** Nothing stands in the way of a signed shutdown message stamped a full window ahead. */
  ghost predicate Ready(site: Site, w: World, secret: Credential, q: Request, first: RequestId, second: RequestId) {
    && w.app.identity.credential == Some(secret)
    && q.path == SHUTDOWN && Signed(site.crypto, secret, q)
    && q.timestamp == Seconds(w.now) + CLOCK_WINDOW
    && q.nonce !in w.app.auth.nonces && !HasNonce(w.app.identity.ledger, q.nonce)
    && first != second && first !in w.inFlight && second !in w.inFlight
  }

  lemma CopyVerified(site: Site, w: World, secret: Credential, q: Request, version: string, id: RequestId)
    requires w.app.identity.credential == Some(secret) && Signed(site.crypto, secret, q)
    requires InWindow(Seconds(w.now), q.timestamp) && id !in w.inFlight
    requires q.nonce !in Remembered(w.app.auth.nonces, Seconds(w.now))
    ensures var v := Next(site, Next(site, w, ReadCredential(id, q, Some(version))), Verify(id));
            && v == w.(app := w.app.(auth := v.app.auth), inFlight := v.inFlight)
            && v.inFlight == w.inFlight[id := InFlight(q, Some(version), secret, Verified)]
            && v.app.auth.nonces == Remembered(w.app.auth.nonces, Seconds(w.now))[q.nonce := Seconds(w.now)]
  {
    var u := Next(site, w, ReadCredential(id, q, Some(version)));
    var v := Next(site, u, Verify(id));
    assert v == VerifyInFlight(site, u, id);
    assert v.inFlight == w.inFlight[id := InFlight(q, Some(version), secret, Verified)];
  }

  lemma CopySpent(site: Site, w: World, id: RequestId)
    requires id in w.inFlight && w.inFlight[id].phase == Verified && w.inFlight[id].request.path == SHUTDOWN
    requires !HasNonce(Retained(w.app.identity.ledger, Seconds(w.now)), w.inFlight[id].request.nonce)
    ensures var v := Next(site, w, Spend(id, true));
            var f := w.inFlight[id];
            && v == w.(app := v.app, inFlight := v.inFlight, accepted := v.accepted)
            && v.app == w.app.(identity := v.app.identity, disk := v.app.disk)
            && v.app.identity == w.app.identity.(ledger := Retained(w.app.identity.ledger, Seconds(w.now))
                                                          + [AcceptedNonce(f.request.timestamp, f.request.nonce)])
            && v.inFlight == w.inFlight[id := f.(phase := Authenticated(Some(|w.accepted|)))]
            && v.accepted == w.accepted + [Acceptance(Message(f.secret, f.request.timestamp, f.request.nonce),
                                                      w.app.identity.credential, Seconds(w.now))]
  {
  }

  /** One copy of the message accepted at once; 61 seconds later, a second copy verified. */
  function Opening(q: Request, version: string, first: RequestId, second: RequestId): seq<Event> {
    [ReadCredential(first, q, Some(version)), Verify(first), Spend(first, true), Tick(61 * SECOND),
     ReadCredential(second, q, Some(version)), Verify(second)]
  }

  /** A world where the message was accepted and a second copy of it waits to spend its nonce. */
  ghost predicate Waiting(w: World, v: World, secret: Credential, q: Request, version: string, first: RequestId,
                          second: RequestId) {
    && first in v.inFlight && v.inFlight[first] == InFlight(q, Some(version), secret, Authenticated(Some(|w.accepted|)))
    && second in v.inFlight && v.inFlight[second] == InFlight(q, Some(version), secret, Verified)
    && v.app.pairing == w.app.pairing && v.issued == w.issued && v.delivered == w.delivered
    && v.now == w.now + 61 * SECOND
    && v.app.identity == w.app.identity.(ledger := Retained(w.app.identity.ledger, Seconds(w.now))
                                                  + [AcceptedNonce(q.timestamp, q.nonce)])
    && v.accepted == w.accepted + [Acceptance(Message(secret, q.timestamp, q.nonce), Some(secret), Seconds(w.now))]
  }

  lemma FewerNonces(ledger: seq<AcceptedNonce>, at: nat, nonce: Bytes)
    requires !HasNonce(ledger, nonce)
    ensures !HasNonce(Retained(ledger, at), nonce)
  {
    var kept := Retained(ledger, at);
    forall i | 0 <= i < |kept| ensures kept[i].nonce != nonce {
      RetainedMembers(ledger, at, kept[i]);
      assert kept[i] in ledger;
    }
  }

  /** The first copy goes straight through. */
  lemma FirstCopySpent(site: Site, w: World, secret: Credential, q: Request, version: string, first: RequestId,
                       second: RequestId)
    requires Ready(site, w, secret, q, first, second)
    ensures var es := Opening(q, version, first, second);
            var v := Run(site, w, es[..3]);
            && v.now == w.now && v.app.pairing == w.app.pairing && v.issued == w.issued && v.delivered == w.delivered
            && v.inFlight == w.inFlight[first := InFlight(q, Some(version), secret, Authenticated(Some(|w.accepted|)))]
            && v.app.identity == w.app.identity.(ledger := Retained(w.app.identity.ledger, Seconds(w.now))
                                                          + [AcceptedNonce(q.timestamp, q.nonce)])
            && v.accepted == w.accepted + [Acceptance(Message(secret, q.timestamp, q.nonce), Some(secret),
                                                      Seconds(w.now))]
            && v.app.auth.nonces == Remembered(w.app.auth.nonces, Seconds(w.now))[q.nonce := Seconds(w.now)]
  {
    var es := Opening(q, version, first, second);
    OpeningVerifies(site, w, q, version, first, second);
    CopyVerified(site, w, secret, q, version, first);
    FewerNonces(w.app.identity.ledger, Seconds(w.now), q.nonce);
    CopySpent(site, Run(site, w, es[..2]), first);
    RunStep(site, w, es, 2);
  }

  lemma OpeningVerifies(site: Site, w: World, q: Request, version: string, first: RequestId, second: RequestId)
    ensures Run(site, w, Opening(q, version, first, second)[..2])
         == Next(site, Next(site, w, ReadCredential(first, q, Some(version))), Verify(first))
  {
    var es := Opening(q, version, first, second);
    RunStep(site, w, es, 0);
    RunStep(site, w, es, 1);
    assert es[..0] == [];
  }

  lemma SecondCopyWaits(site: Site, w: World, secret: Credential, q: Request, version: string, first: RequestId,
                        second: RequestId)
    requires Ready(site, w, secret, q, first, second)
    ensures Waiting(w, Run(site, w, Opening(q, version, first, second)), secret, q, version, first, second)
  {
    var es := Opening(q, version, first, second);
    FirstCopySpent(site, w, secret, q, version, first, second);
    RunStep(site, w, es, 3);
    var v3, v4 := Run(site, w, es[..3]), Run(site, w, es[..4]);
    assert v4 == v3.(now := w.now + 61 * SECOND);
    assert Seconds(v4.now) == Seconds(w.now) + 61;
    CopyVerified(site, v4, secret, q, version, second);
    RunStep(site, w, es, 4);
    RunStep(site, w, es, 5);
    assert es[..6] == es;
  }

  /** Both copies reached the power controller. */
  ghost predicate DeliveredTwice(w: World, v: World, m: Message) {
    var n := |w.accepted|;
    && v.delivered == w.delivered + [n, n + 1] && |v.accepted| == n + 2
    && v.accepted[n].message == m && v.accepted[n + 1].message == m
  }

  lemma SecondCopyDelivered(site: Site, w: World, v: World, u: World, secret: Credential, q: Request, version: string,
                            first: RequestId, second: RequestId)
    requires Waiting(w, v, secret, q, version, first, second) && first != second && q.path == SHUTDOWN
    requires u == v.(app := u.app, now := u.now, issued := u.issued)
    requires !HasNonce(Retained(u.app.identity.ledger, Seconds(u.now)), q.nonce)
    ensures DeliveredTwice(w, Run(site, u, [Spend(second, true), Dispatch(first, true), Dispatch(second, true)]),
                           Message(secret, q.timestamp, q.nonce))
  {
    var es := [Spend(second, true), Dispatch(first, true), Dispatch(second, true)];
    CopySpent(site, u, second);
    RunStep(site, u, es, 0);
    assert es[..0] == [];
    var u1 := Run(site, u, es[..1]);
    BothDispatched(site, u1, first, second, |w.accepted|, |w.accepted| + 1);
    RunStep(site, u, es, 1);
    RunStep(site, u, es, 2);
    assert es[..3] == es;
  }

  lemma BothDispatched(site: Site, u: World, first: RequestId, second: RequestId, a: nat, b: nat)
    requires first != second && first in u.inFlight && second in u.inFlight
    requires u.inFlight[first].payload.Some? && u.inFlight[first].phase == Authenticated(Some(a))
    requires u.inFlight[second].payload.Some? && u.inFlight[second].phase == Authenticated(Some(b))
    ensures var v := Next(site, Next(site, u, Dispatch(first, true)), Dispatch(second, true));
            v.delivered == u.delivered + [a, b] && v.accepted == u.accepted
  {
    OneDispatched(site, u, first, a);
    OneDispatched(site, Next(site, u, Dispatch(first, true)), second, b);
    assert u.delivered + [a] + [b] == u.delivered + [a, b];
  }

  lemma OneDispatched(site: Site, u: World, id: RequestId, ticket: nat)
    requires id in u.inFlight && u.inFlight[id].payload.Some? && u.inFlight[id].phase == Authenticated(Some(ticket))
    ensures var v := Next(site, u, Dispatch(id, true));
            v.delivered == u.delivered + [ticket] && v.accepted == u.accepted && v.inFlight == u.inFlight - {id}
  {
  }

  lemma RunContinued(site: Site, w: World, a: seq<Event>, e: Event, b: seq<Event>)
    ensures Run(site, w, a + [e] + b) == Run(site, Next(site, Run(site, w, a), e), b)
  {
    RunAppend(site, w, a + [e], b);
    assert (a + [e])[..|a|] == a;
  }

  /** At-most-once fails if the second copy is held up for a minute between verification and the
      ledger: by then the ledger has forgotten the nonce, and nothing checks the clock again. From any
      paired world, any fresh message stamped a full window ahead is delivered twice. */
  lemma DelayDeliversTwice(site: Site, w: World, secret: Credential, q: Request, version: string, first: RequestId,
                           second: RequestId)
    requires Ready(site, w, secret, q, first, second)
    ensures DeliveredTwice(w,
              Run(site, w, Opening(q, version, first, second) + [Tick(60 * SECOND)]
                           + [Spend(second, true), Dispatch(first, true), Dispatch(second, true)]),
              Message(secret, q.timestamp, q.nonce))
  {
    var es := Opening(q, version, first, second);
    SecondCopyWaits(site, w, secret, q, version, first, second);
    var v := Run(site, w, es);
    var u := Next(site, v, Tick(60 * SECOND));
    assert Seconds(u.now) == Seconds(w.now) + 121;
    var ledger, at := u.app.identity.ledger, Seconds(u.now);
    FewerNonces(w.app.identity.ledger, Seconds(w.now), q.nonce);
    var kept := Retained(ledger, at);
    forall i | 0 <= i < |kept| ensures kept[i].nonce != q.nonce {
      RetainedMembers(ledger, at, kept[i]);
      if kept[i].nonce == q.nonce {
        HasNonceOf(Retained(w.app.identity.ledger, Seconds(w.now)), kept[i]);
      }
    }
    SecondCopyDelivered(site, w, v, u, secret, q, version, first, second);
    RunContinued(site, w, es, Tick(60 * SECOND), [Spend(second, true), Dispatch(first, true), Dispatch(second, true)]);
  }

  /** A pairing session that the confirmation completes with the given fresh credential, now and for
      the next 61 seconds. */
  ghost predicate AboutToPair(site: Site, w: World, e: Event) {
    && e.ConfirmPairing? && e.saved && |e.sessionId| == 16 && e.credential !in w.issued
    && e.sessionId in w.app.pairing.pending && w.app.pairing.completed == map[]
    && Live(w.app.pairing.pending[e.sessionId].created, w.now + 61 * SECOND)
    && e.confirmation == Confirmation(site.crypto, e.sessionId, w.app.pairing.pending[e.sessionId])
    && Issue(site.crypto, w.app.pairing.pending[e.sessionId], e.sessionId, Context(site, w.app.identity.hostId),
             e.credential, e.nonce).Ok?
  }

  /** At-most-once also fails if a re-pairing commits between verification and the ledger: the new
      pairing clears the ledger, and nothing checks the credential again. */
  lemma RepairingDeliversTwice(site: Site, w: World, secret: Credential, q: Request, version: string,
                               first: RequestId, second: RequestId, confirm: Event)
    requires Ready(site, w, secret, q, first, second) && AboutToPair(site, w, confirm)
    ensures DeliveredTwice(w,
              Run(site, w, Opening(q, version, first, second) + [confirm]
                           + [Spend(second, true), Dispatch(first, true), Dispatch(second, true)]),
              Message(secret, q.timestamp, q.nonce))
  {
    var es := Opening(q, version, first, second);
    SecondCopyWaits(site, w, secret, q, version, first, second);
    var v := Run(site, w, es);
    var u := Next(site, v, confirm);
    var p := Pruned(v.app.pairing, v.now);
    assert p.completed == map[] && confirm.sessionId in p.pending;
    assert p.pending[confirm.sessionId] == w.app.pairing.pending[confirm.sessionId];
    assert u.app.identity.ledger == [];
    SecondCopyDelivered(site, w, v, u, secret, q, version, first, second);
    RunContinued(site, w, es, confirm, [Spend(second, true), Dispatch(first, true), Dispatch(second, true)]);
  }

  // ---------------------------------------------------------------- from an installation

  /** Encrypting credentials works, and the host's names fit their length prefixes. */
  ghost predicate Working(site: Site, hostId: Bytes) {
    && |site.hostname| <= 65535 && |hostId| <= 65535
    && forall key, nonce, text, aad :: site.crypto.seal(key, nonce, text, aad).Some?
  }

  /** The session that `SessionEvents` opens. */
  function Session(now: nat): Pending {
    Pending([], [], [], now, None)
  }

  /** The user asks for a code, and a client opens a session against it. */
  function SessionEvents(code: string, session: SessionId): seq<Event> {
    [Generate(code, true), Admit(0), OpenPairing(0, None, [], Some(Exchange([], [])), session)]
  }

  function Confirms(site: Site, now: nat, session: SessionId, secret: Credential): Event {
    ConfirmPairing(session, Confirmation(site.crypto, session, Session(now)), secret, [], true)
  }

  /** A signed shutdown request, stamped a full window ahead. */
  function Ahead(site: Site, secret: Credential, now: nat, nonce: Bytes): Request
    requires |nonce| == 16 && Seconds(now) + CLOCK_WINDOW < 0x1_0000_0000_0000_0000
  {
    var at := Seconds(now) + CLOCK_WINDOW;
    Request(at, nonce, site.crypto.hmac(secret, RequestMessage(site.crypto, at, nonce, "POST", SHUTDOWN, [])),
            "POST", SHUTDOWN, [])
  }

  lemma AheadIsSigned(site: Site, secret: Credential, now: nat, nonce: Bytes)
    requires |nonce| == 16 && Seconds(now) + CLOCK_WINDOW < 0x1_0000_0000_0000_0000
    ensures Signed(site.crypto, secret, Ahead(site, secret, now, nonce))
  {
  }

  /** Nothing is in flight, and no nonce was ever presented. */
  ghost predicate Idle(w: World) {
    w.inFlight == map[] && w.app.auth.nonces == map[] && w.app.identity.ledger == [] && w.admitted == {}
  }

  /** Asking for a code and opening a session leaves exactly that session. */
  lemma OpenedSession(site: Site, w: World, code: string, session: SessionId)
    requires ValidCode(code) && Idle(w)
    ensures var v := Run(site, w, SessionEvents(code, session));
            && Idle(v) && v == w.(app := v.app)
            && v.app.identity.credential == w.app.identity.credential && v.app.identity.hostId == w.app.identity.hostId
            && v.app.pairing == Generated(code, w.now).(pending := map[session := Session(w.now)])
  {
    var es := SessionEvents(code, session);
    assert es[..0] == [] && es[..3] == es;
    RunStep(site, w, es, 0);
    RunStep(site, w, es, 1);
    RunStep(site, w, es, 2);
    StartsOnNewCode(code, w.now, session);
  }

  lemma StartsOnNewCode(code: string, now: nat, session: SessionId)
    ensures Start(Generated(code, now), now, None, [], Some(Exchange([], [])), session).0
         == Generated(code, now).(pending := map[session := Session(now)])
  {
    var c := Generated(code, now);
    assert Pruned(c, now) == c;
  }

  lemma SessionConfirms(site: Site, w: World, code: string, session: SessionId, secret: Credential)
    requires Idle(w) && Working(site, w.app.identity.hostId) && secret !in w.issued
    requires w.app.pairing == Generated(code, w.now).(pending := map[session := Session(w.now)])
    ensures Issue(site.crypto, Session(w.now), session, Context(site, w.app.identity.hostId), secret, []).Ok?
    ensures var v := Next(site, w, Confirms(site, w.now, session, secret));
            && Idle(v) && v == w.(app := v.app, issued := w.issued + {secret})
            && v.app.identity.credential == Some(secret) && v.app.identity.hostId == w.app.identity.hostId
  {
    var ctx := Context(site, w.app.identity.hostId);
    assert |AadParts(Session(w.now), session, ctx)| == 5;
    assert |Ascii(HOST_VERSION)| == 5;
    var p := Pruned(w.app.pairing, w.now);
    assert session in p.pending && p.pending[session] == Session(w.now) && p.completed == map[];
  }

  /** A fresh installation can be paired with any credential. */
  lemma PairsFromInstallation(site: Site, hostId: Bytes, code: string, t: nat, session: SessionId, secret: Credential)
    requires ValidCode(code) && Working(site, hostId)
    ensures var es := SessionEvents(code, session) + [Confirms(site, t, session, secret)];
            var w := Run(site, Installed(hostId, code, t), es);
            && Idle(w) && w.now == t && w.issued == {secret} && w.accepted == [] && w.delivered == []
            && w.app.identity.credential == Some(secret) && w.app.identity.hostId == hostId
  {
    var w := Installed(hostId, code, t);
    OpenedSession(site, w, code, session);
    var v := Run(site, w, SessionEvents(code, session));
    SessionConfirms(site, v, code, session, secret);
    var es := SessionEvents(code, session) + [Confirms(site, t, session, secret)];
    assert es[..|es| - 1] == SessionEvents(code, session);
  }

  /** Two deliveries of one message. */
  ghost predicate Repeats(w: World) {
    exists i, j :: 0 <= i < j < |w.delivered| && w.delivered[i] < |w.accepted| && w.delivered[j] < |w.accepted|
                   && DeliveredMessage(w, i) == DeliveredMessage(w, j)
  }

  lemma TwiceRepeats(w: World, v: World, m: Message)
    requires w.accepted == [] && w.delivered == [] && DeliveredTwice(w, v, m)
    ensures Repeats(v)
  {
    assert DeliveredMessage(v, 0) == DeliveredMessage(v, 1);
  }

  /** Every working installation has a run in which a delay repeats a delivery. */
  lemma DelayHappens(site: Site, hostId: Bytes, code: string, t: nat, secret: Credential, nonce: Bytes,
                     session: SessionId)
    returns (es: seq<Event>)
    requires ValidCode(code) && Working(site, hostId)
    requires |nonce| == 16 && Seconds(t) + CLOCK_WINDOW < 0x1_0000_0000_0000_0000
    ensures Repeats(Run(site, Installed(hostId, code, t), es))
  {
    var start, q := Installed(hostId, code, t), Ahead(site, secret, t, nonce);
    AheadIsSigned(site, secret, t, nonce);
    PairsFromInstallation(site, hostId, code, t, session, secret);
    var setup := SessionEvents(code, session) + [Confirms(site, t, session, secret)];
    var w := Run(site, start, setup);
    var rest := Opening(q, "0.1.0", 1, 2) + [Tick(60 * SECOND)]
                + [Spend(2, true), Dispatch(1, true), Dispatch(2, true)];
    DelayDeliversTwice(site, w, secret, q, "0.1.0", 1, 2);
    TwiceRepeats(w, Run(site, w, rest), Message(secret, q.timestamp, q.nonce));
    RunAppend(site, start, setup, rest);
    es := setup + rest;
  }

  /** Every working installation has a run in which a re-pairing repeats a delivery. */
  lemma RepairingHappens(site: Site, hostId: Bytes, code: string, t: nat, secret: Credential, renewed: Credential,
                         nonce: Bytes, session: SessionId)
    returns (es: seq<Event>)
    requires ValidCode(code) && Working(site, hostId) && secret != renewed
    requires |nonce| == 16 && Seconds(t) + CLOCK_WINDOW < 0x1_0000_0000_0000_0000
    ensures Repeats(Run(site, Installed(hostId, code, t), es))
  {
    var start, q := Installed(hostId, code, t), Ahead(site, secret, t, nonce);
    AheadIsSigned(site, secret, t, nonce);
    PairsFromInstallation(site, hostId, code, t, session, secret);
    var setup := SessionEvents(code, session) + [Confirms(site, t, session, secret)];
    var paired := Run(site, start, setup);
    OpenedSession(site, paired, code, session);
    var w, confirm := Run(site, paired, SessionEvents(code, session)), Confirms(site, t, session, renewed);
    SessionConfirms(site, w, code, session, renewed);
    var rest := Opening(q, "0.1.0", 1, 2) + [confirm] + [Spend(2, true), Dispatch(1, true), Dispatch(2, true)];
    RepairingDeliversTwice(site, w, secret, q, "0.1.0", 1, 2, confirm);
    TwiceRepeats(w, Run(site, w, rest), Message(secret, q.timestamp, q.nonce));
    RunAppend(site, start, setup, SessionEvents(code, session));
    RunAppend(site, start, setup + SessionEvents(code, session), rest);
    es := setup + SessionEvents(code, session) + rest;
  }
}
