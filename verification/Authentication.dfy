/** Request authentication on the host: clock window, signature, nonce memory and the
    sliding-window failure limiter. Times are whole seconds since the epoch. */
module Authentication {
  import opened Common
  import opened Canonical

  const CLOCK_WINDOW: nat := 60
  const MAX_FAILURES: nat := 20

  datatype Request = Request(
    timestamp: u64, nonce: Bytes, signature: Bytes, verb: string, path: string, body: Bytes)

  /** The contents of an `Authenticator`: when each nonce was last presented, and the
      recent failures, oldest first. */
  datatype Auth = Auth(nonces: map<Bytes, nat>, failures: seq<nat>)

  const FRESH := Auth(map[], [])

  predicate InWindow(now: nat, timestamp: nat) {
    now <= timestamp + CLOCK_WINDOW && timestamp <= now + CLOCK_WINDOW
  }

  predicate Signed(c: Crypto, secret: Bytes, q: Request) {
    && RequestEncodable(q.nonce, q.verb, q.path)
    && q.signature == c.hmac(secret, RequestMessage(c, q.timestamp, q.nonce, q.verb, q.path, q.body))
  }

  // ---------------------------------------------------------------- one call

  function DropExpired(failures: seq<nat>, now: nat): seq<nat> {
    if failures == [] || SaturatingSub(now, failures[0]) <= CLOCK_WINDOW then failures
    else DropExpired(failures[1..], now)
  }

  function RecordFailure(a: Auth, now: nat, error: AuthError): (Auth, AuthError) {
    var recent := DropExpired(a.failures, now);
    if |recent| >= MAX_FAILURES then (a.(failures := recent), RateLimited)
    else (a.(failures := recent + [now]), error)
  }

  function Remembered(nonces: map<Bytes, nat>, now: nat): map<Bytes, nat> {
    map n | n in nonces && SaturatingSub(now, nonces[n]) <= CLOCK_WINDOW :: nonces[n]
  }

  /** A request as `verify` sees it: the error it earns on its own, if any, and the nonce it
      presents. Nothing else about it can influence the authenticator. */
  datatype Presented = Presented(fault: Option<AuthError>, nonce: Bytes, timestamp: nat, at: nat)

  function Present(c: Crypto, secret: Bytes, q: Request, now: nat): (p: Presented)
    ensures p.fault.None? <==> InWindow(now, q.timestamp) && Signed(c, secret, q)
    ensures Genuine(p)
  {
    Presented(
      if !InWindow(now, q.timestamp) then Some(Stale)
      else if !RequestEncodable(q.nonce, q.verb, q.path) then Some(Malformed)
      else if !Signed(c, secret, q) then Some(Invalid)
      else None,
      q.nonce, q.timestamp, now)
  }

  /** What every presentation of a real request satisfies. */
  predicate Genuine(p: Presented) {
    && (p.fault.None? ==> InWindow(p.at, p.timestamp))
    && (p.fault.Some? ==> p.fault.value in {Stale, Malformed, Invalid})
  }

  function Settle(a: Auth, p: Presented): (Auth, Result<(), AuthError>) {
    if p.fault.Some? then
      var (a', e) := RecordFailure(a, p.at, p.fault.value);
      (a', Err(e))
    else
      var kept := Remembered(a.nonces, p.at);
      (a.(nonces := kept[p.nonce := p.at]), if p.nonce in kept then Err(Replay) else Ok(()))
  }

  function VerifyRequest(a: Auth, c: Crypto, secret: Bytes, q: Request, now: nat): (Auth, Result<(), AuthError>) {
    Settle(a, Present(c, secret, q, now))
  }

  class Authenticator {
    const crypto: Crypto
    var acceptedNonces: map<Bytes, nat>
    var failures: seq<nat>

    ghost function View(): Auth
      reads this
    {
      Auth(acceptedNonces, failures)
    }

    constructor (c: Crypto)
      ensures View() == FRESH && crypto == c
    {
      crypto := c;
      acceptedNonces := map[];
      failures := [];
    }

    method Failed(now: nat, error: AuthError) returns (r: AuthError)
      modifies this`failures
      ensures (View(), r) == RecordFailure(old(View()), now, error)
    {
      while |failures| > 0 && SaturatingSub(now, failures[0]) > CLOCK_WINDOW
        invariant DropExpired(failures, now) == DropExpired(old(failures), now)
        decreases |failures|
      {
        failures := failures[1..];
      }
      if |failures| >= MAX_FAILURES {
        return RateLimited;
      }
      failures := failures + [now];
      return error;
    }

    method Verify(secret: Bytes, q: Request, now: nat) returns (r: Result<(), AuthError>)
      modifies this`failures, this`acceptedNonces
      ensures (View(), r) == VerifyRequest(old(View()), crypto, secret, q, now)
    {
      if !InWindow(now, q.timestamp) {
        var e := Failed(now, Stale);
        return Err(e);
      }
      var message := CanonicalMessage(crypto, q.timestamp, q.nonce, q.verb, q.path, q.body);
      if message.Err? {
        var e := Failed(now, message.error);
        return Err(e);
      }
      if q.signature != crypto.hmac(secret, message.value) {
        var e := Failed(now, Invalid);
        return Err(e);
      }
      acceptedNonces := Remembered(acceptedNonces, now);
      var seen := q.nonce in acceptedNonces;
      acceptedNonces := acceptedNonces[q.nonce := now];
      return if seen then Err(Replay) else Ok(());
    }
  }

  // ---------------------------------------------------------------- whole runs

  /** A run of one process: genuine presentations, with a clock that never runs backwards. */
  ghost predicate IsRun(ps: seq<Presented>) {
    && (forall i :: 0 <= i < |ps| ==> Genuine(ps[i]))
    && (forall i, j :: 0 <= i < j < |ps| ==> ps[i].at <= ps[j].at)
  }

  function After(ps: seq<Presented>): Auth {
    if ps == [] then FRESH else Settle(After(ps[..|ps| - 1]), ps[|ps| - 1]).0
  }

  function Outcome(ps: seq<Presented>, k: nat): Result<(), AuthError>
    requires k < |ps|
  {
    Settle(After(ps[..k]), ps[k]).1
  }

  /** Every remembered time is the time of a faultless request with that nonce. */
  ghost predicate OnlyValid(ps: seq<Presented>, nonces: map<Bytes, nat>) {
    forall n :: n in nonces ==>
      exists i :: 0 <= i < |ps| && ps[i].fault.None? && ps[i].nonce == n && ps[i].at == nonces[n]
  }

  /** Every faultless request is remembered, possibly under a refreshed time, or out of the window. */
  ghost predicate AllRecent(ps: seq<Presented>, nonces: map<Bytes, nat>, now: nat) {
    forall i :: 0 <= i < |ps| && ps[i].fault.None? ==>
      || (ps[i].nonce in nonces && ps[i].at <= nonces[ps[i].nonce])
      || ps[i].at + CLOCK_WINDOW < now
  }

  lemma NonceMemoryStep(ps: seq<Presented>, a: Auth, p: Presented)
    requires OnlyValid(ps, a.nonces) && AllRecent(ps, a.nonces, p.at)
    requires forall i :: 0 <= i < |ps| ==> ps[i].at <= p.at
    ensures OnlyValid(ps + [p], Settle(a, p).0.nonces) && AllRecent(ps + [p], Settle(a, p).0.nonces, p.at)
  {
    var all, after := ps + [p], Settle(a, p).0.nonces;
    assert all[|ps|] == p && forall i :: 0 <= i < |ps| ==> all[i] == ps[i];
    forall n | n in after
      ensures exists i :: 0 <= i < |all| && all[i].fault.None? && all[i].nonce == n && all[i].at == after[n]
    {
      if !(p.fault.None? && n == p.nonce) {
        var i :| 0 <= i < |ps| && ps[i].fault.None? && ps[i].nonce == n && ps[i].at == a.nonces[n];
        assert all[i] == ps[i];
      }
    }
  }

  lemma {:induction false} NonceMemory(ps: seq<Presented>, now: nat)
    requires IsRun(ps) && forall i :: 0 <= i < |ps| ==> ps[i].at <= now
    ensures OnlyValid(ps, After(ps).nonces) && AllRecent(ps, After(ps).nonces, now)
  {
    if ps != [] {
      var k := |ps| - 1;
      NonceMemory(ps[..k], ps[k].at);
      NonceMemoryStep(ps[..k], After(ps[..k]), ps[k]);
      assert ps == ps[..k] + [ps[k]];
    }
  }

  /** A request presents a nonce that a faultless request presented within the last window. */
  ghost predicate Reuses(ps: seq<Presented>, k: nat)
    requires k < |ps|
  {
    exists i :: 0 <= i < k && ps[i].fault.None? && ps[i].nonce == ps[k].nonce && ps[k].at <= ps[i].at + CLOCK_WINDOW
  }

  /** In every run, `verify` accepts exactly the signed requests inside the clock window whose
      nonce no such request presented within the last window. In particular, acceptance never
      depends on how many failures came before. */
  lemma AcceptsExactly(ps: seq<Presented>, k: nat)
    requires IsRun(ps) && k < |ps|
    ensures Outcome(ps, k).Ok? <==> ps[k].fault.None? && !Reuses(ps, k)
  {
    var earlier := ps[..k];
    assert forall i :: 0 <= i < k ==> earlier[i] == ps[i];
    NonceMemory(earlier, ps[k].at);
  }

  /** Which error a request earns on its own, in the order in which they are tested: a timestamp more than
      sixty seconds away, a nonce or text that cannot be encoded, and a wrong signature. */
  lemma FaultExactly(c: Crypto, secret: Bytes, q: Request, now: nat)
    ensures var p := Present(c, secret, q, now);
            var late := q.timestamp > now + 60 || now > q.timestamp + 60;
            var encodable := && |q.nonce| == 16 && IsAscii(q.verb) && IsAscii(q.path)
                             && |q.verb| < 65536 && |q.path| < 65536;
            && p.nonce == q.nonce && p.timestamp == q.timestamp && p.at == now
            && (p.fault == Some(Stale) <==> late)
            && (p.fault == Some(Malformed) <==> !late && !encodable)
            && (p.fault == Some(Invalid) <==>
                  && !late && encodable
                  && q.signature != c.hmac(secret, RequestMessage(c, q.timestamp, q.nonce, q.verb, q.path, q.body)))
            && (p.fault.Some? ==> p.fault.value in {Stale, Malformed, Invalid})
  {
  }

  /** What a request is answered in every run: its own error or that failures are limited; that it is a
      replay, exactly if it has no fault but reuses a nonce; or success. */
  lemma AnswersExactly(ps: seq<Presented>, k: nat)
    requires IsRun(ps) && k < |ps|
    ensures Outcome(ps, k) == Err(Replay) <==> ps[k].fault.None? && Reuses(ps, k)
    ensures ps[k].fault.Some? ==> Outcome(ps, k) in {Err(ps[k].fault.value), Err(RateLimited)}
  {
    AcceptsExactly(ps, k);
  }

  /** After an acceptance, the same nonce is refused for a whole window, whatever other
      requests prune or refresh. So a request that is accepted twice in one process was
      stamped ahead of the clock the first time. */
  lemma SecondAcceptance(ps: seq<Presented>, i: nat, j: nat)
    requires IsRun(ps) && i < j < |ps|
    requires Outcome(ps, i).Ok? && Outcome(ps, j).Ok? && ps[i].nonce == ps[j].nonce
    ensures ps[j].at > ps[i].at + CLOCK_WINDOW
    ensures ps[i].timestamp == ps[j].timestamp ==> ps[i].timestamp > ps[i].at
  {
    AcceptsExactly(ps, i);
    AcceptsExactly(ps, j);
  }

  /** Conversely, a request just accepted, presented unchanged at a later time, can be accepted
      again by the same process if and only if its timestamp was ahead of the clock. */
  lemma AcceptedAgainIff(ps: seq<Presented>, c: Crypto, secret: Bytes, q: Request, now: nat)
    requires IsRun(ps + [Present(c, secret, q, now)])
    requires Outcome(ps + [Present(c, secret, q, now)], |ps|).Ok?
    ensures (exists later: nat :: now <= later
               && Outcome(ps + [Present(c, secret, q, now), Present(c, secret, q, later)], |ps| + 1).Ok?)
       <==> q.timestamp > now
  {
    var k, first := |ps|, Present(c, secret, q, now);
    assert (ps + [first])[..k] == ps;
    forall later: nat | now <= later
      ensures Outcome(ps + [first, Present(c, secret, q, later)], k + 1).Ok?
         <==> InWindow(later, q.timestamp) && later > now + CLOCK_WINDOW
    {
      assert (ps + [first, Present(c, secret, q, later)])[..k + 1] == ps + [first];
    }
    if q.timestamp > now {
      var later := now + CLOCK_WINDOW + 1;
      assert InWindow(later, q.timestamp);
      assert Outcome(ps + [first, Present(c, secret, q, later)], k + 1).Ok?;
    }
  }

  // ---------------------------------------------------------------- the failure limiter

  /** A failure answered with its own error, not with `RateLimited`. */
  predicate Reported(r: Result<(), AuthError>) {
    r.Err? && r.error != RateLimited && r.error != Replay
  }

  /** The times of the reported failures of a run. */
  function ReportedAt(ps: seq<Presented>): seq<nat> {
    if ps == [] then []
    else
      var k := |ps| - 1;
      ReportedAt(ps[..k]) + if Reported(Outcome(ps, k)) then [ps[k].at] else []
  }

  lemma {:induction false} DropExpiredIsSuffix(failures: seq<nat>, now: nat) returns (d: nat)
    ensures d <= |failures| && DropExpired(failures, now) == failures[d..]
    ensures forall i :: 0 <= i < d ==> failures[i] + CLOCK_WINDOW < now
    ensures d < |failures| ==> now <= failures[d] + CLOCK_WINDOW
  {
    if failures == [] || SaturatingSub(now, failures[0]) <= CLOCK_WINDOW {
      d := 0;
    } else {
      d := DropExpiredIsSuffix(failures[1..], now);
      d := d + 1;
      assert failures[1..][d - 1..] == failures[d..];
      assert forall i :: 1 <= i < d ==> failures[i] == failures[1..][i - 1];
    }
  }

  ghost predicate Sorted(ts: seq<nat>) {
    forall i, j :: 0 <= i < j < |ts| ==> ts[i] <= ts[j]
  }

  /** Any twenty-one reported failures span more than the window. */
  ghost predicate Spread(ts: seq<nat>) {
    forall i, j :: 0 <= i && i + 20 <= j < |ts| ==> ts[i] + 60 < ts[j]
  }

  /** The queue is the tail of the reported failures; everything dropped is out of the window. */
  ghost predicate Queue(reported: seq<nat>, queue: seq<nat>, dropped: nat, now: nat) {
    && dropped <= |reported| && queue == reported[dropped..] && |queue| <= MAX_FAILURES
    && Sorted(reported) && Spread(reported)
    && (forall i :: 0 <= i < |reported| ==> reported[i] <= now)
    && (forall i :: 0 <= i < dropped ==> reported[i] + CLOCK_WINDOW < now)
  }

  lemma SpreadAppend(reported: seq<nat>, now: nat, dropped: nat)
    requires Sorted(reported) && Spread(reported)
    requires forall i :: 0 <= i < |reported| ==> reported[i] <= now
    requires |reported| < dropped + MAX_FAILURES && dropped <= |reported|
    requires forall i :: 0 <= i < dropped ==> reported[i] + CLOCK_WINDOW < now
    ensures Sorted(reported + [now]) && Spread(reported + [now])
  {
    var all := reported + [now];
    forall i, j | 0 <= i && i + MAX_FAILURES <= j < |all| ensures all[i] + CLOCK_WINDOW < all[j] {
      if j == |reported| {
        assert all[i] == reported[i];
      } else {
        assert all[i] == reported[i] && all[j] == reported[j];
      }
    }
  }

  lemma QueueStep(reported: seq<nat>, queue: seq<nat>, m: nat, now: nat) returns (dropped: nat)
    requires Queue(reported, queue, m, now)
    ensures var recent := DropExpired(queue, now);
            if |recent| >= MAX_FAILURES then Queue(reported, recent, dropped, now)
            else Queue(reported + [now], recent + [now], dropped, now)
  {
    var d := DropExpiredIsSuffix(queue, now);
    dropped := m + d;
    assert queue[d..] == reported[dropped..];
    forall i | m <= i < dropped ensures reported[i] + CLOCK_WINDOW < now {
      assert reported[i] == queue[i - m];
    }
    if |queue[d..]| < MAX_FAILURES {
      SpreadAppend(reported, now, dropped);
      assert (reported + [now])[dropped..] == queue[d..] + [now];
    }
  }

  lemma QueueLater(reported: seq<nat>, queue: seq<nat>, dropped: nat, now: nat, later: nat)
    requires Queue(reported, queue, dropped, now) && now <= later
    ensures Queue(reported, queue, dropped, later)
  {
  }

  /** How the last request of a run changes the queue and the reported failures. */
  lemma ReportStep(ps: seq<Presented>)
    requires ps != [] && Genuine(ps[|ps| - 1])
    ensures var k := |ps| - 1;
            var queue, reported := After(ps[..k]).failures, ReportedAt(ps[..k]);
            var recent := DropExpired(queue, ps[k].at);
            if ps[k].fault.None? then After(ps).failures == queue && ReportedAt(ps) == reported
            else if |recent| >= MAX_FAILURES then After(ps).failures == recent && ReportedAt(ps) == reported
            else After(ps).failures == recent + [ps[k].at] && ReportedAt(ps) == reported + [ps[k].at]
  {
  }

  lemma {:induction false} QueueHolds(ps: seq<Presented>, now: nat) returns (dropped: nat)
    requires IsRun(ps) && forall i :: 0 <= i < |ps| ==> ps[i].at <= now
    ensures Queue(ReportedAt(ps), After(ps).failures, dropped, now)
  {
    if ps == [] {
      dropped := 0;
    } else {
      var k := |ps| - 1;
      var front, at := ps[..k], ps[k].at;
      dropped := QueueHolds(front, at);
      ReportStep(ps);
      if ps[k].fault.Some? {
        dropped := QueueStep(ReportedAt(front), After(front).failures, dropped, at);
      }
      QueueLater(ReportedAt(ps), After(ps).failures, dropped, at, now);
    }
  }

  /** At most twenty failures are reported in any window: in every run, any twenty-one of them
      span more than sixty seconds, and the queue stays sorted with at most twenty entries. */
  lemma FailuresAreSpread(ps: seq<Presented>)
    requires IsRun(ps)
    ensures Spread(ReportedAt(ps))
    ensures Sorted(After(ps).failures) && |After(ps).failures| <= 20
  {
    var _ := QueueHolds(ps, if ps == [] then 0 else ps[|ps| - 1].at);
  }

  /** The limiter is not too strict either: a failure is answered with `RateLimited` exactly when
      the twentieth-last reported failure is still inside the window. */
  lemma RateLimitedExactly(ps: seq<Presented>, k: nat)
    requires IsRun(ps) && k < |ps| && ps[k].fault.Some?
    ensures Outcome(ps, k) == Err(RateLimited)
       <==> var reported := ReportedAt(ps[..k]);
            |reported| >= 20 && ps[k].at <= reported[|reported| - 20] + 60
  {
    var reported, queue, now := ReportedAt(ps[..k]), After(ps[..k]).failures, ps[k].at;
    var m := QueueHolds(ps[..k], now);
    var d := DropExpiredIsSuffix(queue, now);
    assert forall i :: 0 <= i < |queue| ==> queue[i] == reported[m + i];
    if |queue| == MAX_FAILURES {
      assert queue[0] == reported[|reported| - MAX_FAILURES];
    } else if |reported| >= MAX_FAILURES {
      assert reported[|reported| - MAX_FAILURES] + CLOCK_WINDOW < now;
    }
  }
}
