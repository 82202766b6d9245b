/** What the Deck's store can mean, what each operation does to that meaning, and what each keeps. */
module StoreStates {
  import opened Common
  import opened Validation
  import opened DeckStore

  // ---------------------------------------------------------------- healthy states

  /** The devices with the flag that loading gives them: whether there is a credential. */
  function Flagged(ds: seq<Device>, secrets: Secrets): (r: seq<Device>)
    ensures |r| == |ds|
  {
    seq(|ds|, i requires 0 <= i < |ds| => ds[i].(paired := ds[i].id in secrets))
  }

  predicate UniqueIds(ds: seq<Device>) {
    forall i, j :: 0 <= i < j < |ds| ==> ds[i].id != ds[j].id
  }

  /** Every field is as its validator returns it. */
  predicate Settled(d: Device) {
    ValidDevice(d) == Some(d)
  }

  predicate AllSettled(ds: seq<Device>) {
    forall i :: 0 <= i < |ds| ==> Settled(ds[i])
  }

  /** A state that loads: devices in normal form with distinct identifiers and the right flags, and
      credentials of 32 bytes. */
  predicate Sane(s: State) {
    && AllSettled(s.devices) && UniqueIds(s.devices)
    && s.devices == Flagged(s.devices, s.secrets) && ValidSecrets(s.secrets)
  }

  /** Every credential belongs to a device. */
  ghost predicate Owned(s: State) {
    forall id :: id in s.secrets ==> exists i :: 0 <= i < |s.devices| && s.devices[i].id == id
  }

  ghost predicate Good(s: State) {
    Sane(s) && Owned(s)
  }

  lemma FlaggedTwice(ds: seq<Device>, a: Secrets, b: Secrets)
    ensures Flagged(Flagged(ds, a), b) == Flagged(ds, b)
  {
  }

  // ---------------------------------------------------------------- loading

  lemma {:induction false} TraverseIff<A>(xs: seq<A>, g: A -> Option<A>, ys: seq<A>)
    ensures Traverse(xs, g) == Some(ys) <==> |ys| == |xs| && forall i :: 0 <= i < |xs| ==> g(xs[i]) == Some(ys[i])
  {
    if xs != [] && ys != [] {
      TraverseIff(xs[1..], g, ys[1..]);
      assert ys == [ys[0]] + ys[1..];
      assert forall i :: 1 <= i < |xs| ==> xs[i] == xs[1..][i - 1];
      assert forall i :: 1 <= i < |ys| ==> ys[i] == ys[1..][i - 1];
    }
  }

  lemma {:induction false} TraverseSome<A>(xs: seq<A>, g: A -> Option<A>)
    ensures Traverse(xs, g).Some? <==> forall i :: 0 <= i < |xs| ==> g(xs[i]).Some?
  {
    if xs != [] {
      TraverseSome(xs[1..], g);
      assert forall i :: 1 <= i < |xs| ==> xs[i] == xs[1..][i - 1];
    }
  }

  /** Each field is in the normal form of its validator. */
  predicate Normal(d: Device) {
    && Strip(d.id) != [] && d.name != [] && Strip(d.name) == d.name
    && ValidateAddress(d.address) == Some(d.address) && NormalizeMac(d.mac) == Some(d.mac)
    && ValidatePort(Integer(d.port), false) == Some(d.port)
    && ValidateBroadcast(BroadcastText(d.broadcast)) == Some(d.broadcast)
  }

  lemma NormalIsValid(d: Device)
    requires Normal(d)
    ensures ValidDevice(d) == Some(d)
  {
  }

  /** What building a device makes of each field. */
  lemma BuildFields(form: Form, id: string)
    requires Build(form, id).Some?
    ensures var d := Build(form, id).value;
            && d.id == id && d.name == Strip(form.name) && d.name != [] && !d.paired
            && ValidateAddress(form.address) == Some(d.address) && NormalizeMac(form.mac) == Some(d.mac)
            && ValidatePort(form.port, true) == Some(d.port) && ValidateBroadcast(form.broadcast) == Some(d.broadcast)
            && d.macOverridden == form.macOverridden
            && d.hostId.None? && d.hostVersion.None? && d.protocolVersion.None?
  {
  }

  lemma StripTwice(s: string)
    ensures Strip(Strip(s)) == Strip(s)
  {
    StripTrims(s);
    StripTrims(Strip(s));
  }

  lemma PortAgain(value: PortValue, port: int)
    requires ValidatePort(value, true) == Some(port)
    ensures ValidatePort(Integer(port), false) == Some(port)
  {
  }

  /** A device built from a form is in normal form. */
  lemma BuiltIsValid(form: Form, id: string)
    requires Build(form, id).Some? && Strip(id) != []
    ensures ValidDevice(Build(form, id).value) == Some(Build(form, id).value)
  {
    var d := Build(form, id).value;
    BuildFields(form, id);
    StripTwice(form.name);
    ValidateAddressIdempotent(form.address);
    NormalizeMacIdempotent(form.mac);
    ValidateBroadcastIdempotent(form.broadcast);
    PortAgain(form.port, d.port);
    NormalIsValid(d);
  }

  /** Host metadata and the flag are not validated. */
  lemma MetadataIsFree(d: Device, e: Device)
    requires Settled(d)
    requires e == d.(hostId := e.hostId, hostVersion := e.hostVersion, protocolVersion := e.protocolVersion,
                     paired := e.paired)
    ensures Settled(e)
  {
  }

  /** What loading makes of a stored device: each text in normal form, and the flag from the
      credentials. */
  predicate Loaded(raw: Device, d: Device, secrets: Secrets) {
    && Strip(raw.id) != [] && Strip(raw.name) != [] && d.name == Strip(raw.name)
    && ValidateAddress(raw.address) == Some(d.address) && NormalizeMac(raw.mac) == Some(d.mac)
    && ValidatePort(Integer(raw.port), false) == Some(d.port)
    && ValidateBroadcast(BroadcastText(raw.broadcast)) == Some(d.broadcast)
    && d.paired == (raw.id in secrets) && d.id == raw.id && d.macOverridden == raw.macOverridden
    && d.hostId == raw.hostId && d.hostVersion == raw.hostVersion && d.protocolVersion == raw.protocolVersion
  }

  lemma DecodesDevice(raw: Device, d: Device, secrets: Secrets)
    ensures DecodeDevice(raw, secrets) == Some(d) <==> Loaded(raw, d, secrets)
  {
  }

  /** Any settings document, whoever wrote it, loads exactly as its devices do one by one. */
  lemma DecodesExactly(x: Settings, secrets: Secrets, ds: seq<Device>)
    ensures DecodeSettings(x, secrets) == Some(ds)
       <==> x.version == 2 && |ds| == |x.devices| && forall i :: 0 <= i < |ds| ==> Loaded(x.devices[i], ds[i], secrets)
  {
    TraverseIff(x.devices, (d: Device) => DecodeDevice(d, secrets), ds);
    if |ds| == |x.devices| {
      AllDecode(x.devices, secrets, ds);
    }
  }

  lemma AllDecode(raw: seq<Device>, secrets: Secrets, ds: seq<Device>)
    requires |ds| == |raw|
    ensures (forall i :: 0 <= i < |ds| ==> DecodeDevice(raw[i], secrets) == Some(ds[i]))
       <==> forall i :: 0 <= i < |ds| ==> Loaded(raw[i], ds[i], secrets)
  {
    forall i | 0 <= i < |ds|
      ensures DecodeDevice(raw[i], secrets) == Some(ds[i]) <==> Loaded(raw[i], ds[i], secrets)
    {
      DecodesDevice(raw[i], ds[i], secrets);
    }
  }

  /** A stored device that loads. */
  predicate Loadable(raw: Device) {
    && Strip(raw.id) != [] && Strip(raw.name) != [] && ValidateAddress(raw.address).Some?
    && NormalizeMac(raw.mac).Some? && ValidatePort(Integer(raw.port), false).Some?
    && ValidateBroadcast(BroadcastText(raw.broadcast)).Some?
  }

  lemma DecodesIff(x: Settings, secrets: Secrets)
    ensures DecodeSettings(x, secrets).Some?
       <==> x.version == 2 && forall i :: 0 <= i < |x.devices| ==> Loadable(x.devices[i])
  {
    TraverseSome(x.devices, (d: Device) => DecodeDevice(d, secrets));
    forall i | 0 <= i < |x.devices| ensures DecodeDevice(x.devices[i], secrets).Some? <==> Loadable(x.devices[i]) {
      DeviceDecodesIff(x.devices[i], secrets);
    }
  }

  lemma DeviceDecodesIff(raw: Device, secrets: Secrets)
    ensures DecodeDevice(raw, secrets).Some? <==> Loadable(raw)
  {
  }

  /** What was loaded is in normal form. */
  lemma LoadedIsSettled(raw: Device, d: Device, secrets: Secrets)
    requires Loaded(raw, d, secrets)
    ensures Settled(d)
  {
    StripTwice(raw.name);
    ValidateAddressIdempotent(raw.address);
    NormalizeMacIdempotent(raw.mac);
    ValidateBroadcastIdempotent(BroadcastText(raw.broadcast));
    NormalIsValid(d);
  }

  lemma SettledLoads(raw: Device, secrets: Secrets)
    requires Settled(raw)
    ensures DecodeDevice(raw, secrets) == Some(raw.(paired := raw.id in secrets))
  {
  }

  /** A document whose devices are those of a sane state, whatever their flags, loads as that state. */
  lemma SaneReloads(s: State, ds: seq<Device>)
    requires Sane(s) && Flagged(ds, s.secrets) == s.devices
    ensures DecodeSettings(Settings(SCHEMA_VERSION, ds), s.secrets) == Some(s.devices)
  {
    var g := (d: Device) => DecodeDevice(d, s.secrets);
    forall i | 0 <= i < |ds| ensures g(ds[i]) == Some(s.devices[i]) {
      assert s.devices[i] == Flagged(ds, s.secrets)[i];
      MetadataIsFree(s.devices[i], ds[i]);
      SettledLoads(ds[i], s.secrets);
    }
    TraverseIff(ds, g, s.devices);
  }

  // ---------------------------------------------------------------- each effect keeps a sane state

  /** What callers owe: identifiers that are not blank, and credentials of 32 bytes. */
  predicate Proper(op: Op) {
    && (op.Upsert? ==> Strip(op.Target()) != [])
    && (op.MarkPaired? ==> |op.credential| == 32)
  }

  /** The state as the next load shows it. */
  function Shown(s: State): State {
    State(Flagged(s.devices, s.secrets), s.secrets)
  }

  lemma ShownIsSane(s: State)
    requires AllSettled(s.devices) && UniqueIds(s.devices) && ValidSecrets(s.secrets)
    ensures Sane(Shown(s))
  {
    var ds := Flagged(s.devices, s.secrets);
    forall i | 0 <= i < |ds| ensures Settled(ds[i]) {
      MetadataIsFree(s.devices[i], ds[i]);
    }
    FlaggedTwice(s.devices, s.secrets, s.secrets);
  }

  /** What a state is made of: fit to be combined with the credentials of another. */
  predicate Fit(s: State) {
    AllSettled(s.devices) && UniqueIds(s.devices) && ValidSecrets(s.secrets)
  }

  lemma {:induction false} WithoutMembers(ds: seq<Device>, id: string)
    ensures forall d :: d in Without(ds, id) <==> d in ds && d.id != id
    ensures UniqueIds(ds) ==> UniqueIds(Without(ds, id))
  {
    if ds != [] {
      WithoutMembers(ds[1..], id);
      var rest := Without(ds[1..], id);
      assert forall d :: d in ds <==> d == ds[0] || d in ds[1..];
      if UniqueIds(ds) {
        assert forall i :: 0 <= i < |ds[1..]| ==> ds[1..][i] == ds[i + 1];
        forall j | 0 <= j < |rest| ensures rest[j].id != ds[0].id {
          assert rest[j] in ds[1..];
        }
      }
    }
  }

  lemma PutIsFit(s: State, device: Device)
    requires Fit(s) && Settled(device)
    ensures Fit(s.(devices := Put(s.devices, device)))
  {
    var k := Find(s.devices, device.id);
    if k < |s.devices| {
      MetadataIsFree(device, Put(s.devices, device)[k]);
    }
  }

  lemma WithoutIsFit(s: State, id: string)
    requires Fit(s)
    ensures Fit(State(Without(s.devices, id), s.secrets - {id}))
  {
    WithoutMembers(s.devices, id);
    var kept := Without(s.devices, id);
    forall i | 0 <= i < |kept| ensures Settled(kept[i]) {
      assert kept[i] in s.devices;
    }
  }

  lemma MarkedIsFit(s: State, op: Op)
    requires Fit(s) && op.MarkPaired? && Effect(s, op).Some?
    ensures AllSettled(Effect(s, op).value.devices) && UniqueIds(Effect(s, op).value.devices)
    ensures |op.credential| == 32 ==> ValidSecrets(Effect(s, op).value.secrets)
  {
    var k, t := Find(s.devices, op.id), Effect(s, op).value;
    MetadataIsFree(s.devices[k], t.devices[k]);
    assert Strip(op.id) != [] by { assert Settled(s.devices[k]); }
    assert op.id != [];
  }

  lemma ProperIsFit(s: State, op: Op)
    requires Fit(s) && Proper(op) && Effect(s, op).Some?
    ensures Fit(Effect(s, op).value)
  {
    match op
    case Read =>
    case Upsert(_, _, form) =>
      BuiltIsValid(form, op.Target());
      PutIsFit(s, Build(form, op.Target()).value);
    case Delete(id) => WithoutIsFit(s, id);
    case MarkPaired(_, _, _, _, _) => MarkedIsFit(s, op);
  }

  /** A state that cannot be loaded: some device has a blank identifier, or a credential is wrong. */
  ghost predicate Broken(s: State) {
    s.devices != [] && (!ValidSecrets(s.secrets) || HasBlank(s.devices))
  }

  ghost predicate HasBlank(ds: seq<Device>) {
    exists i :: 0 <= i < |ds| && Strip(ds[i].id) == []
  }

  lemma BlankIsUnsettled(ds: seq<Device>)
    requires HasBlank(ds)
    ensures !AllSettled(ds)
  {
    var i :| 0 <= i < |ds| && Strip(ds[i].id) == [];
    assert !Settled(ds[i]);
  }

  lemma PutHolds(ds: seq<Device>, e: Device)
    ensures var k := Find(ds, e.id);
            k < |Put(ds, e)| && Put(ds, e)[k].id == e.id
  {
  }

  lemma ImproperBreaks(s: State, op: Op)
    requires !Proper(op) && Effect(s, op).Some?
    ensures var t := Effect(s, op).value;
            t.devices != [] && (if op.Upsert? then HasBlank(t.devices) else !ValidSecrets(t.secrets))
  {
    if op.Upsert? {
      PutHolds(s.devices, Build(op.form, op.Target()).value);
    } else {
      assert |Effect(s, op).value.secrets[op.id]| != 32;
    }
  }

  /** The state an operation aims at: its effect, as the next load shows it. */
  function Goal(s: State, op: Op): Option<State> {
    var t := Effect(s, op);
    if t.None? then None else Some(Shown(t.value))
  }

  /** An operation keeps a sane state sane if and only if it is proper. */
  lemma EffectIsSane(s: State, op: Op)
    requires Sane(s) && Effect(s, op).Some?
    ensures Sane(Goal(s, op).value) <==> Proper(op)
  {
    var t := Effect(s, op).value;
    if Proper(op) {
      ProperIsFit(s, op);
      ShownIsSane(t);
    } else {
      ImproperBreaks(s, op);
      if op.Upsert? {
        ShownBlank(t.devices, t.secrets);
        BlankIsUnsettled(Shown(t).devices);
      }
    }
  }

  lemma ShownBlank(ds: seq<Device>, secrets: Secrets)
    requires HasBlank(ds)
    ensures HasBlank(Flagged(ds, secrets))
  {
    var i :| 0 <= i < |ds| && Strip(ds[i].id) == [];
    assert Flagged(ds, secrets)[i].id == ds[i].id;
  }

  // ---------------------------------------------------------------- each effect keeps a good state

  /** Every credential still belongs to a device. */
  lemma OwnersKept(s: State, after: seq<Device>, id: string)
    requires Owned(s) && id in s.secrets && |s.devices| <= |after|
    requires forall i :: 0 <= i < |s.devices| ==> after[i].id == s.devices[i].id
    ensures exists i :: 0 <= i < |after| && after[i].id == id
  {
    var i :| 0 <= i < |s.devices| && s.devices[i].id == id;
    assert after[i].id == id;
  }

  lemma ReplacedOwned(s: State, k: nat, e: Device, secrets: Secrets)
    requires Owned(s) && k < |s.devices| && e.id == s.devices[k].id
    requires forall id :: id != e.id ==> (id in secrets <==> id in s.secrets)
    ensures Owned(State(s.devices[k := e], secrets))
  {
    var after := s.devices[k := e];
    forall id | id in secrets ensures exists i :: 0 <= i < |after| && after[i].id == id {
      if id == e.id {
        assert after[k].id == id;
      } else {
        OwnersKept(s, after, id);
      }
    }
  }

  lemma DeletedOwned(s: State, id: string)
    requires Owned(s)
    ensures Owned(State(Without(s.devices, id), s.secrets - {id}))
  {
    WithoutMembers(s.devices, id);
    var kept := Without(s.devices, id);
    forall x | x in s.secrets - {id} ensures exists i :: 0 <= i < |kept| && kept[i].id == x {
      var i :| 0 <= i < |s.devices| && s.devices[i].id == x;
      assert s.devices[i] in kept;
    }
  }

  lemma AddedOwned(s: State, e: Device)
    requires Owned(s)
    ensures Owned(s.(devices := s.devices + [e]))
  {
    var after := s.devices + [e];
    forall id | id in s.secrets ensures exists i :: 0 <= i < |after| && after[i].id == id {
      OwnersKept(s, after, id);
    }
  }

  lemma EffectIsOwned(s: State, op: Op)
    requires Owned(s) && Effect(s, op).Some?
    ensures Owned(Effect(s, op).value)
  {
    var t := Effect(s, op).value;
    match op
    case Read =>
    case Upsert(_, _, form) =>
      var device := Build(form, op.Target()).value;
      var k := Find(s.devices, device.id);
      if k < |s.devices| {
        ReplacedOwned(s, k, t.devices[k], s.secrets);
      } else {
        AddedOwned(s, device);
      }
    case Delete(id) => DeletedOwned(s, id);
    case MarkPaired(id, _, _, _, _) =>
      var k := Find(s.devices, id);
      ReplacedOwned(s, k, t.devices[k], t.secrets);
  }

  /** From a good state, what an operation writes already has the right flags. */
  lemma EffectIsShown(s: State, op: Op)
    requires Good(s) && Effect(s, op).Some?
    ensures Shown(Effect(s, op).value) == Effect(s, op).value
  {
    var t := Effect(s, op).value;
    match op
    case Read =>
    case Upsert(_, _, form) => UpsertIsShown(s, Build(form, op.Target()).value);
    case Delete(id) => DeleteIsShown(s, id);
    case MarkPaired(id, _, _, _, _) => MarkIsShown(s, op);
  }

  lemma FlagsAreRight(s: State, i: nat)
    requires s.devices == Flagged(s.devices, s.secrets) && i < |s.devices|
    ensures s.devices[i].paired == (s.devices[i].id in s.secrets)
  {
    assert s.devices[i] == Flagged(s.devices, s.secrets)[i];
  }

  lemma UpsertIsShown(s: State, e: Device)
    requires Owned(s) && s.devices == Flagged(s.devices, s.secrets) && !e.paired
    ensures Flagged(Put(s.devices, e), s.secrets) == Put(s.devices, e)
  {
    var after := Put(s.devices, e);
    var k := Find(s.devices, e.id);
    if k == |s.devices| { assert e.id !in s.secrets; }
    forall i | 0 <= i < |after| ensures after[i].paired == (after[i].id in s.secrets) {
      if i < |s.devices| {
        FlagsAreRight(s, i);
      }
    }
  }

  lemma DeleteIsShown(s: State, id: string)
    requires s.devices == Flagged(s.devices, s.secrets)
    ensures Flagged(Without(s.devices, id), s.secrets - {id}) == Without(s.devices, id)
  {
    var kept := Without(s.devices, id);
    WithoutMembers(s.devices, id);
    forall i | 0 <= i < |kept| ensures kept[i].paired == (kept[i].id in s.secrets - {id}) {
      assert kept[i] in s.devices && kept[i].id != id;
      var j :| 0 <= j < |s.devices| && s.devices[j] == kept[i];
      FlagsAreRight(s, j);
    }
  }

  lemma MarkIsShown(s: State, op: Op)
    requires s.devices == Flagged(s.devices, s.secrets) && UniqueIds(s.devices) && op.MarkPaired? && Effect(s, op).Some?
    ensures Shown(Effect(s, op).value) == Effect(s, op).value
  {
    var t := Effect(s, op).value;
    var k := Find(s.devices, op.id);
    forall i | 0 <= i < |t.devices| ensures t.devices[i].paired == (t.devices[i].id in t.secrets) {
      if i != k {
        FlagsAreRight(s, i);
      }
    }
  }

  /** An operation keeps a good state good if and only if it is proper. */
  lemma EffectIsGood(s: State, op: Op)
    requires Good(s) && Effect(s, op).Some?
    ensures Goal(s, op) == Effect(s, op)
    ensures Good(Effect(s, op).value) <==> Proper(op)
  {
    EffectIsShown(s, op);
    EffectIsSane(s, op);
    EffectIsOwned(s, op);
  }

  // ---------------------------------------------------------------- what the effects are

  lemma {:induction false} WithoutNone(ds: seq<Device>, id: string)
    requires forall i :: 0 <= i < |ds| ==> ds[i].id != id
    ensures Without(ds, id) == ds
  {
    if ds != [] {
      WithoutNone(ds[1..], id);
      assert ds == [ds[0]] + ds[1..];
    }
  }

  lemma {:induction false} WithoutOne(ds: seq<Device>, id: string, k: nat)
    requires k < |ds| && ds[k].id == id && forall i :: 0 <= i < |ds| && i != k ==> ds[i].id != id
    ensures Without(ds, id) == ds[..k] + ds[k + 1..]
  {
    if k == 0 {
      WithoutNone(ds[1..], id);
      assert ds[..0] + ds[1..] == ds[1..];
    } else {
      WithoutOne(ds[1..], id, k - 1);
      assert ds[..k] == [ds[0]] + ds[1..][..k - 1] && ds[k + 1..] == ds[1..][k..];
    }
  }

  /** Deleting removes exactly the device with the identifier and its credential, and leaves the other
      devices in order. */
  lemma DeleteRemovesOne(s: State, id: string)
    requires UniqueIds(s.devices)
    ensures var k, t := Find(s.devices, id), Effect(s, Delete(id)).value;
            && t.secrets == s.secrets - {id}
            && t.devices == if k == |s.devices| then s.devices else s.devices[..k] + s.devices[k + 1..]
  {
    var k := Find(s.devices, id);
    if k < |s.devices| {
      WithoutOne(s.devices, id, k);
    } else {
      WithoutNone(s.devices, id);
    }
  }

  /** Deleting a device that was just added restores the state. */
  lemma DeleteUndoesUpsert(s: State, op: Op)
    requires Owned(s) && op.Upsert? && Effect(s, op).Some? && Find(s.devices, op.Target()) == |s.devices|
    ensures Effect(Effect(s, op).value, Delete(op.Target())) == Some(s)
  {
    DeleteUndoesPut(s, Build(op.form, op.Target()).value);
  }

  lemma DeleteUndoesPut(s: State, e: Device)
    requires Owned(s) && Find(s.devices, e.id) == |s.devices|
    ensures Without(Put(s.devices, e), e.id) == s.devices && s.secrets - {e.id} == s.secrets
  {
    WithoutAppended(s.devices, e);
    assert e.id !in s.secrets;
  }

  lemma {:induction false} WithoutAppended(ds: seq<Device>, e: Device)
    requires forall i :: 0 <= i < |ds| ==> ds[i].id != e.id
    ensures Without(ds + [e], e.id) == ds
  {
    if ds == [] {
      assert ds + [e] == [e] && [e][1..] == [];
    } else {
      assert (ds + [e])[1..] == ds[1..] + [e];
      WithoutAppended(ds[1..], e);
      assert ds == [ds[0]] + ds[1..];
    }
  }

  /** The fields that a form fills in. */
  predicate Written(d: Device, form: Form) {
    && d.name == Strip(form.name) && d.macOverridden == form.macOverridden
    && ValidateAddress(form.address) == Some(d.address) && NormalizeMac(form.mac) == Some(d.mac)
    && ValidatePort(form.port, true) == Some(d.port) && ValidateBroadcast(form.broadcast) == Some(d.broadcast)
  }

  predicate SameHost(d: Device, e: Device) {
    d.hostId == e.hostId && d.hostVersion == e.hostVersion && d.protocolVersion == e.protocolVersion
  }

  /** A form is accepted exactly if it has a name and every validator accepts its field. */
  lemma UpsertAcceptedIff(s: State, op: Op)
    requires op.Upsert?
    ensures Effect(s, op).Some?
       <==> && Strip(op.form.name) != [] && ValidateAddress(op.form.address).Some? && NormalizeMac(op.form.mac).Some?
            && ValidatePort(op.form.port, true).Some? && ValidateBroadcast(op.form.broadcast).Some?
  {
  }

  /** `t` is `s` after the form was written to the device at position `k`. */
  predicate WrittenAt(s: State, t: State, id: string, form: Form, k: nat) {
    && k < |t.devices| && t.devices[k].id == id && Written(t.devices[k], form) && t.secrets == s.secrets
    && (forall i :: 0 <= i < |t.devices| && i != k ==> t.devices[i].id != id)
    && (forall i :: 0 <= i < |s.devices| && i != k ==> i < |t.devices| && t.devices[i] == s.devices[i])
    && if k < |s.devices| then
         && |t.devices| == |s.devices| && SameHost(t.devices[k], s.devices[k])
         && t.devices[k].paired == s.devices[k].paired
       else
         && k == |s.devices| && |t.devices| == k + 1 && !t.devices[k].paired
         && t.devices[k].hostId.None? && t.devices[k].hostVersion.None? && t.devices[k].protocolVersion.None?
  }

  /** An upsert writes the form to the one device with the identifier, keeping its place, its pairing and
      its host metadata; or adds the device at the end. Nothing else changes. */
  lemma UpsertWrites(s: State, op: Op)
    requires UniqueIds(s.devices) && op.Upsert? && Effect(s, op).Some?
    ensures var id := if op.given == "" then op.uuid else op.given;
            exists k :: WrittenAt(s, Effect(s, op).value, id, op.form, k)
  {
    var device := Build(op.form, op.Target()).value;
    BuildFields(op.form, op.Target());
    var k := Find(s.devices, device.id);
    assert WrittenAt(s, Effect(s, op).value, op.Target(), op.form, k);
  }

  /** `t` is `s` after the device at position `k` was paired. */
  predicate PairedAt(s: State, t: State, op: Op, k: nat)
    requires op.MarkPaired?
  {
    && k < |s.devices| == |t.devices| && s.devices[k].id == op.id
    && t.devices[k] == s.devices[k].(hostId := Some(op.hostId), hostVersion := Some(op.hostVersion),
                                     protocolVersion := Some(op.protocolVersion), paired := true)
    && (forall i :: 0 <= i < |s.devices| && i != k ==> t.devices[i] == s.devices[i])
    && t.secrets.Keys == s.secrets.Keys + {op.id} && t.secrets[op.id] == op.credential
    && (forall id :: id in s.secrets && id != op.id ==> t.secrets[id] == s.secrets[id])
  }

  /** Pairing is refused exactly if no device has the identifier. Otherwise it writes the credential and
      the host metadata, and nothing else changes. */
  lemma MarkPairedWrites(s: State, op: Op)
    requires op.MarkPaired?
    ensures Effect(s, op).None? <==> forall i :: 0 <= i < |s.devices| ==> s.devices[i].id != op.id
    ensures Effect(s, op).Some? ==> exists k :: PairedAt(s, Effect(s, op).value, op, k)
  {
    var k := Find(s.devices, op.id);
    if k < |s.devices| {
      assert PairedAt(s, Effect(s, op).value, op, k);
    }
  }
}
