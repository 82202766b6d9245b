/** Whole runs of the Deck's store: when it gets stuck, what later reads see, and operations that show the
    limits of both. */
module StoreRuns {
  import opened Common
  import opened Strings
  import opened Validation
  import opened DeckStore
  import opened StoreStates
  import opened StoreSafety

  // ---------------------------------------------------------------- any files at all

  /** The store answers nothing but errors, and never changes again. */
  ghost predicate Stuck(d: Disk) {
    forall op: Op, f: Faults :: Execute(d, op, f) == (d, Failed)
  }

  predicate BadSecrets(secrets: Secrets) {
    exists id :: id in secrets && (id == "" || |secrets[id]| != 32)
  }

  predicate BadSettings(x: Settings) {
    x.version != 2 || exists i :: 0 <= i < |x.devices| && !Loadable(x.devices[i])
  }

  /** A transaction that cannot be parsed or decoded; or, without one, settings that cannot be, or that
      need credentials which cannot be. */
  predicate Corrupt(d: Disk) {
    match d.transaction
    case Unreadable => true
    case Document(t) => BadSecrets(t.secrets) || BadSettings(t.settings)
    case Absent =>
      || d.settings.Unreadable?
      || (&& d.settings.Document?
          && (|| d.secrets.Unreadable? || (d.secrets.Document? && BadSecrets(d.secrets.value))
              || BadSettings(d.settings.value)))
  }

  function Zeros(): string {
    seq(12, _ => '0')
  }

  /** A form that is accepted under every identifier. */
  function PlainForm(): Form {
    Form("a", "h", Zeros(), false, Missing, "")
  }

  /** The device it makes. */
  function PlainDevice(id: string): Device {
    Device(id, "a", "h", Pairs(Zeros()), false, DEFAULT_PORT, None, None, None, None, false)
  }

  function Calm(): Faults {
    _ => Works
  }

  lemma PlainMac()
    ensures NormalizeMac(Zeros()) == Some(Pairs(Zeros()))
  {
    var s := Zeros();
    CompactPlain(s, []);
    assert s + [] == s;
  }

  lemma PlainAddress()
    ensures ValidateAddress("h") == Some("h")
  {
    assert Cut("h") == ("h", None) by { CutUndotted("h", []); }
    assert SplitDots("h") == ["h"];
    assert IsLabel("h");
  }

  lemma PlainFormIsAccepted(id: string)
    ensures Build(PlainForm(), id) == Some(PlainDevice(id))
  {
    PlainMac();
    PlainAddress();
    assert ValidateBroadcast("") == Some(None);
    assert Strip("a") == "a";
    BuildFrom(PlainForm(), id, "a", "h", Pairs(Zeros()), DEFAULT_PORT, None);
  }

  lemma BuildFrom(form: Form, id: string, name: string, address: string, mac: string, port: nat,
                  broadcast: Option<string>)
    requires Strip(form.name) == name && name != [] && ValidateAddress(form.address) == Some(address)
    requires NormalizeMac(form.mac) == Some(mac) && ValidatePort(form.port, true) == Some(port)
    requires ValidateBroadcast(form.broadcast) == Some(broadcast)
    ensures Build(form, id)
         == Some(Device(id, name, address, mac, form.macOverridden, port, broadcast, None, None, None, false))
  {
  }

  lemma LoadsIff(d: Disk)
    requires d.transaction.Absent?
    ensures Load(d).None? <==> Corrupt(d)
  {
    if d.settings.Document? && ReadSecrets(d).Some? {
      DecodesIff(d.settings.value, ReadSecrets(d).value);
    }
  }

  lemma DecodableIff(t: Transaction)
    ensures !Decodable(t) <==> BadSecrets(t.secrets) || BadSettings(t.settings)
  {
    DecodesIff(t.settings, t.secrets);
  }

  lemma UnloadableIsStuck(d: Disk)
    requires d.transaction.Absent? && Load(d).None?
    ensures Stuck(d)
  {
  }

  lemma LoadableIsNotStuck(d: Disk)
    requires d.transaction.Absent? && Load(d).Some?
    ensures !Stuck(d)
  {
    PlainFormIsAccepted("x");
    assert Execute(d, Upsert("x", "", PlainForm()), Calm()).1 != Failed;
  }

  lemma DecodableIsNotStuck(d: Disk, t: Transaction)
    requires d.transaction == Document(t) && Decodable(t)
    ensures !Stuck(d)
  {
    assert Execute(d, Read, Calm()).0 != d;
  }

  lemma UnrecoverableIsStuck(d: Disk)
    requires d.transaction.Unreadable? || (d.transaction.Document? && !Decodable(d.transaction.value))
    ensures Stuck(d)
  {
  }

  /** Whatever is in the files, the store is stuck exactly if they are corrupt. So it never takes a corrupt
      file for an empty one, and never overwrites it. */
  lemma StuckExactly(d: Disk)
    ensures Stuck(d) <==> Corrupt(d)
  {
    match d.transaction
    case Absent =>
      LoadsIff(d);
      if Corrupt(d) { UnloadableIsStuck(d); } else { LoadableIsNotStuck(d); }
    case Unreadable => UnrecoverableIsStuck(d);
    case Document(t) =>
      DecodableIff(t);
      if Corrupt(d) { UnrecoverableIsStuck(d); } else { DecodableIsNotStuck(d, t); }
  }

  /** The devices that a settings file loads as, whoever wrote it. */
  predicate LoadsAs(file: File<Settings>, s: State) {
    match file
    case Absent => s.devices == []
    case Unreadable => false
    case Document(x) =>
      && x.version == 2 && |s.devices| == |x.devices|
      && forall i :: 0 <= i < |s.devices| ==> Loaded(x.devices[i], s.devices[i], s.secrets)
  }

  /** Without a transaction, a read of any files changes nothing, and returns exactly the state that they
      load as: the credentials, and the devices in normal form with the right flags. */
  lemma ReadsExactly(d: Disk, f: Faults, s: State)
    requires d.transaction.Absent?
    ensures Execute(d, Read, f).0 == d
    ensures Execute(d, Read, f).1 == Returned(Some(s))
       <==> Keeps(d.secrets, s) && !BadSecrets(s.secrets) && LoadsAs(d.settings, s)
  {
    if d.settings.Document? {
      DecodesExactly(d.settings.value, s.secrets, s.devices);
    }
    assert ValidSecrets(s.secrets) <==> !BadSecrets(s.secrets);
  }

  // ---------------------------------------------------------------- what the store does not check

  /** The operation leaves what cannot be loaded: it is improper, not refused, and its writes take effect;
      for a pairing, at least that of the credentials. */
  predicate Breaks(d: Disk, s: State, op: Op, f: Faults) {
    && !Proper(op) && Effect(s, op).Some? && Recovers(d, f)
    && if op.Upsert? then TakesEffect(f(3)) else CommitTakes(f) || TornSecrets(f)
  }

  lemma ProperMeaning(d: Disk, s: State, op: Op, f: Faults)
    requires Sane(s) && Proper(op)
    ensures Sane(Meaning(d, s, op, f))
  {
    if Effect(s, op).Some? {
      ProperIsFit(s, op);
      MixesAreSane(s, Effect(s, op).value);
    }
  }

  lemma ImproperMeaning(s: State, op: Op)
    requires Sane(s) && !Proper(op) && Effect(s, op).Some?
    ensures var t := Effect(s, op).value;
            && Broken(Shown(t))
            && (op.MarkPaired? ==> Broken(MixedSecrets(s, t)) && Sane(MixedSettings(s, t)))
  {
    var t := Effect(s, op).value;
    ImproperBreaks(s, op);
    if op.Upsert? {
      ShownBlank(t.devices, t.secrets);
    } else {
      MarkedIsFit(s, op);
      ShownIsSane(State(t.devices, s.secrets));
    }
  }

  lemma MeaningIsSane(d: Disk, s: State, op: Op, f: Faults)
    requires Sane(s)
    ensures if Breaks(d, s, op, f) then Broken(Meaning(d, s, op, f)) else Sane(Meaning(d, s, op, f))
  {
    if Proper(op) {
      ProperMeaning(d, s, op, f);
    } else if Effect(s, op).Some? {
      ImproperMeaning(s, op);
    }
  }

  lemma MixesAreSane(s: State, t: State)
    requires Fit(s) && Fit(t)
    ensures Sane(Shown(t)) && Sane(MixedSecrets(s, t)) && Sane(MixedSettings(s, t))
  {
    ShownIsSane(t);
    ShownIsSane(State(s.devices, t.secrets));
    ShownIsSane(State(t.devices, s.secrets));
  }

  lemma BrokenIsStuck(d: Disk, s: State)
    requires Stored(d, s) && Broken(s)
    ensures Stuck(d)
  {
    BrokenIsCorrupt(d, s);
    StuckExactly(d);
  }

  lemma BlankIsBad(x: Settings, secrets: Secrets)
    requires HasBlank(Flagged(x.devices, secrets))
    ensures BadSettings(x)
  {
    var i :| 0 <= i < |x.devices| && Strip(Flagged(x.devices, secrets)[i].id) == [];
    assert !Loadable(x.devices[i]);
  }

  lemma BrokenIsCorrupt(d: Disk, s: State)
    requires Stored(d, s) && Broken(s)
    ensures Corrupt(d)
  {
    if HasBlank(s.devices) {
      BlankIsBad(if d.transaction.Absent? then d.settings.value else d.transaction.value.settings, s.secrets);
    } else {
      assert BadSecrets(s.secrets);
    }
  }

  lemma SaneIsNotStuck(d: Disk, s: State)
    requires Stored(d, s) && Sane(s)
    ensures !Stuck(d)
  {
    ReadStep(d, s, Calm());
    assert Execute(d, Read, Calm()).1 != Failed;
  }

  /** An upsert does not check the identifier it is given, and a pairing does not check the length of the
      credential. Under every fault pattern, an operation on a working store leaves it stuck if and only
      if it breaks it; otherwise the store still works. */
  lemma StuckIff(d: Disk, s: State, op: Op, f: Faults)
    requires Stored(d, s) && Sane(s)
    ensures Stuck(Execute(d, op, f).0) <==> Breaks(d, s, op, f)
    ensures Sane(Meaning(d, s, op, f)) <==> !Stuck(Execute(d, op, f).0)
  {
    var c, t := Execute(d, op, f).0, Meaning(d, s, op, f);
    StepMeans(d, s, op, f);
    MeaningIsSane(d, s, op, f);
    if Breaks(d, s, op, f) {
      BrokenIsStuck(c, t);
      if Sane(t) {
        SaneIsNotStuck(c, t);
      }
    } else {
      SaneIsNotStuck(c, t);
    }
  }

  // ---------------------------------------------------------------- every run

  const EMPTY_DISK: Disk := Disk(Absent, Absent, Absent)
  const EMPTY_STATE: State := State([], map[])

  /** The files after a run of operations, each under its own faults. */
  function After(ops: seq<Op>, faults: nat -> Faults): Disk {
    if ops == [] then EMPTY_DISK
    else Execute(After(ops[..|ops| - 1], faults), ops[|ops| - 1], faults(|ops| - 1)).0
  }

  function ReplyAt(ops: seq<Op>, faults: nat -> Faults, k: nat): Reply
    requires k < |ops|
  {
    Execute(After(ops[..k], faults), ops[k], faults(k)).1
  }

  /** The files mean `s`, which is sane; or an improper operation has left the store stuck. */
  ghost predicate Holds(d: Disk, s: State) {
    Stored(d, s) && (Sane(s) <==> !Stuck(d))
  }

  /** `t` is the state before the operation or the one it aims at, or a mixture of the two after a torn
      commit; and the one it aims at if the operation succeeded, and then a read has seen it. */
  predicate Explains(s: State, op: Op, f: Faults, r: Reply, t: State) {
    && (|| t == s || Goal(s, op) == Some(t)
        || (TornSecrets(f) && Effect(s, op).Some? && t == MixedSecrets(s, Effect(s, op).value))
        || (TornSettings(f) && Effect(s, op).Some? && t == MixedSettings(s, Effect(s, op).value)))
    && (r.Returned? ==> Goal(s, op) == Some(t) && (op.Read? ==> r.seen == Some(s)))
  }

  predicate Torn(f: Faults) {
    TornSecrets(f) || TornSettings(f)
  }

  /** `states` explains the operations with the replies they gave, and the files mean its last state. A
      state stays sane until an operation breaks the store, and good while also no commit is torn. */
  ghost predicate Explained(ops: seq<Op>, faults: nat -> Faults, states: seq<State>)
    decreases |ops|
  {
    var n := |ops|;
    && |states| == n + 1 && Holds(After(ops, faults), states[n])
    && if n == 0 then states[0] == EMPTY_STATE
       else
         var op, f := ops[n - 1], faults(n - 1);
         && Explained(ops[..n - 1], faults, states[..n])
         && Explains(states[n - 1], op, f, ReplyAt(ops, faults, n - 1), states[n])
         && (Sane(states[n - 1]) && !Breaks(After(ops[..n - 1], faults), states[n - 1], op, f) <==> Sane(states[n]))
         && (Good(states[n - 1]) && Proper(op) && !Torn(f) ==> Good(states[n]))
  }

  /** One more operation, on a working store or on a stuck one. */
  lemma AnyStep(d: Disk, s: State, op: Op, f: Faults) returns (t: State)
    requires Holds(d, s)
    ensures Holds(Execute(d, op, f).0, t) && Explains(s, op, f, Execute(d, op, f).1, t)
    ensures Sane(s) && !Breaks(d, s, op, f) <==> Sane(t)
    ensures Good(s) && Proper(op) && !Torn(f) ==> Good(t)
  {
    if Sane(s) {
      t := Meaning(d, s, op, f);
      StepMeans(d, s, op, f);
      StuckIff(d, s, op, f);
      if Good(s) && Proper(op) && Effect(s, op).Some? {
        EffectIsGood(s, op);
      }
    } else {
      t := s;
      assert Execute(d, op, f) == (d, Failed);
    }
  }

  lemma EmptyHolds()
    ensures Holds(EMPTY_DISK, EMPTY_STATE) && Good(EMPTY_STATE)
  {
    SaneIsNotStuck(EMPTY_DISK, EMPTY_STATE);
  }

  /** Every run of reads, upserts, deletions and pairings from an empty directory, with any failures and any
      crashes, also inside recovery, has states that explain it. If all operations are proper, the store
      works throughout; if moreover no commit is torn, each operation happened entirely or not at all, and
      every credential belongs to a device. */
  lemma {:induction false} RunsAreExplained(ops: seq<Op>, faults: nat -> Faults) returns (states: seq<State>)
    ensures Explained(ops, faults, states)
    ensures (forall k :: 0 <= k < |ops| ==> Proper(ops[k])) ==> Sane(states[|ops|])
    ensures (forall k :: 0 <= k < |ops| ==> Proper(ops[k]) && !Torn(faults(k))) ==> Good(states[|ops|])
  {
    if ops == [] {
      states := [EMPTY_STATE];
      EmptyHolds();
    } else {
      var n := |ops| - 1;
      var front := RunsAreExplained(ops[..n], faults);
      var t := AnyStep(After(ops[..n], faults), front[n], ops[n], faults(n));
      states := front + [t];
      assert states[..n + 1] == front;
    }
  }

  // ---------------------------------------------------------------- what later reads see

  function AfterReads(d: Disk, attempts: seq<Faults>): Disk
    decreases |attempts|
  {
    if attempts == [] then d else AfterReads(Execute(d, Read, attempts[0]).0, attempts[1..])
  }

  lemma {:induction false} ReadsKeep(d: Disk, s: State, attempts: seq<Faults>)
    requires Stored(d, s) && Sane(s)
    ensures Stored(AfterReads(d, attempts), s)
    decreases |attempts|
  {
    if attempts != [] {
      ReadStep(d, s, attempts[0]);
      ReadsKeep(Execute(d, Read, attempts[0]).0, s, attempts[1..]);
    }
  }

  lemma {:induction false} ReadsStayStuck(d: Disk, attempts: seq<Faults>)
    requires Stuck(d)
    ensures AfterReads(d, attempts) == d
    decreases |attempts|
  {
    if attempts != [] {
      assert Execute(d, Read, attempts[0]) == (d, Failed);
      ReadsStayStuck(d, attempts[1..]);
    }
  }

  /** The answer to a read after an operation under faults `f` and reads under faults `attempts`. */
  function ReadAfter(d: Disk, op: Op, f: Faults, attempts: seq<Faults>, last: Faults): Reply {
    Execute(AfterReads(Execute(d, op, f).0, attempts), Read, last).1
  }

  /** After an operation that was interrupted anywhere, and any number of interrupted reads, the first
      read to succeed sees exactly the meaning of the operation under its faults. */
  lemma NextReadSees(d: Disk, s: State, op: Op, f: Faults, attempts: seq<Faults>, last: Faults)
    requires Stored(d, s) && Sane(s)
    ensures var r := ReadAfter(d, op, f, attempts, last);
            r.Returned? ==> r.seen == Some(Meaning(d, s, op, f))
  {
    var c, t := Execute(d, op, f).0, Meaning(d, s, op, f);
    StepMeans(d, s, op, f);
    StuckIff(d, s, op, f);
    if Sane(t) {
      ReadsKeep(c, t, attempts);
      ReadStep(AfterReads(c, attempts), t, last);
    } else {
      ReadsStayStuck(c, attempts);
      assert Execute(c, Read, last) == (c, Failed);
    }
  }

  /** From a good state that is exactly the state before or exactly the effect, if and only if the commit is
      not torn, or the tear does not show. */
  lemma NextReadSeesOldOrNew(d: Disk, s: State, op: Op, f: Faults, attempts: seq<Faults>, last: Faults)
    requires Stored(d, s) && Good(s)
    ensures var r := ReadAfter(d, op, f, attempts, last);
            r.Returned? ==>
              (r.seen == Some(s) || (Effect(s, op).Some? && r.seen == Effect(s, op))
               <==> !(Recovers(d, f) && Torn(f) && Exposed(s, op)))
  {
    NextReadSees(d, s, op, f, attempts, last);
    AtomicIff(d, s, op, f);
  }

  /** After an upsert that succeeded, the next read to succeed shows the form in the one device with its
      identifier. */
  lemma UpsertIsRead(d: Disk, s: State, op: Op, f: Faults, attempts: seq<Faults>, last: Faults)
    requires Stored(d, s) && Good(s) && op.Upsert? && Execute(d, op, f).1.Returned?
    ensures var r, id := ReadAfter(d, op, f, attempts, last), if op.given == "" then op.uuid else op.given;
            r.Returned? ==> r.seen.Some? && exists k :: WrittenAt(s, r.seen.value, id, op.form, k)
  {
    StepMeans(d, s, op, f);
    NextReadSees(d, s, op, f, attempts, last);
    EffectIsGood(s, op);
    UpsertWrites(s, op);
  }

  /** After a pairing that succeeded, the next read to succeed shows the credential and the metadata. */
  lemma PairingIsRead(d: Disk, s: State, op: Op, f: Faults, attempts: seq<Faults>, last: Faults)
    requires Stored(d, s) && Good(s) && op.MarkPaired? && Execute(d, op, f).1.Returned?
    ensures var r := ReadAfter(d, op, f, attempts, last);
            r.Returned? ==> r.seen.Some? && exists k :: PairedAt(s, r.seen.value, op, k)
  {
    StepMeans(d, s, op, f);
    NextReadSees(d, s, op, f, attempts, last);
    EffectIsGood(s, op);
    MarkPairedWrites(s, op);
  }

  // ---------------------------------------------------------------- operations that show the limits

  /** On an empty store, an undisturbed upsert of the form returns, and leaves one device. It makes a good
      state under every identifier that is not blank, and under a blank one it leaves the store stuck. */
  lemma FirstUpsert(id: string, uuid: string)
    requires id != []
    ensures var op := Upsert(id, uuid, PlainForm());
            var (c, r) := Execute(EMPTY_DISK, op, Calm());
            && r.Returned? && Stored(c, PlainState(id))
            && (if Strip(id) != [] then Good(PlainState(id)) && !Stuck(c) else Stuck(c))
  {
    var op := Upsert(id, uuid, PlainForm());
    PlainFormIsAccepted(id);
    EmptyHolds();
    FirstEffect(op, id);
    CalmStep(EMPTY_DISK, EMPTY_STATE, op);
  }

  lemma FirstEffect(op: Op, id: string)
    requires op.Upsert? && op.Target() == id && Build(op.form, id) == Some(PlainDevice(id))
    ensures Effect(EMPTY_STATE, op) == Some(PlainState(id))
  {
    assert Find([], id) == 0;
    assert [] + [PlainDevice(id)] == [PlainDevice(id)];
  }

  /** A blank identifier that is not empty leaves the store stuck. */
  lemma BlankIdSticks(uuid: string)
    ensures Stuck(Execute(EMPTY_DISK, Upsert(" ", uuid, PlainForm()), Calm()).0)
  {
    assert Strip(" ") == [];
    FirstUpsert(" ", uuid);
  }

  /** The first device, paired. */
  function PairedDevice(id: string): Device {
    PlainDevice(id).(hostId := Some("i"), hostVersion := Some("0.1.0"), protocolVersion := Some(1), paired := true)
  }

  /** The files after that upsert and an undisturbed pairing. */
  function PairedDisk(id: string, credential: Bytes): Disk {
    Execute(Execute(EMPTY_DISK, Upsert(id, "", PlainForm()), Calm()).0,
            MarkPaired(id, credential, "i", "0.1.0", 1), Calm()).0
  }

  function PlainState(id: string): State {
    State([PlainDevice(id)], map[])
  }

  function PairedState(id: string, credential: Bytes): State {
    State([PairedDevice(id)], map[id := credential])
  }

  lemma PairingEffect(id: string, credential: Bytes)
    ensures Effect(PlainState(id), MarkPaired(id, credential, "i", "0.1.0", 1)) == Some(PairedState(id, credential))
  {
    var s := PlainState(id);
    assert s.devices[0].id == id;
    assert s.devices[0 := PairedDevice(id)] == [PairedDevice(id)];
  }

  /** Undisturbed, an operation that is not refused returns, and its goal is stored. */
  lemma CalmStep(d: Disk, s: State, op: Op)
    requires Stored(d, s) && Good(s) && Effect(s, op).Some?
    ensures var (c, r) := Execute(d, op, Calm());
            && r.Returned? && Stored(c, Effect(s, op).value)
            && (if Proper(op) then Good(Effect(s, op).value) && !Stuck(c) else Stuck(c))
  {
    EffectIsGood(s, op);
    StepMeans(d, s, op, Calm());
    StuckIff(d, s, op, Calm());
  }

  /** Pairing that first device returns, and leaves it paired in a good state if the credential has 32
      bytes; otherwise the store is stuck. */
  lemma FirstPairing(id: string, credential: Bytes)
    requires Strip(id) != []
    ensures var d := Execute(EMPTY_DISK, Upsert(id, "", PlainForm()), Calm()).0;
            var (c, r) := Execute(d, MarkPaired(id, credential, "i", "0.1.0", 1), Calm());
            && r.Returned? && Stored(c, PairedState(id, credential))
            && (if |credential| == 32 then Good(PairedState(id, credential)) && !Stuck(c) else Stuck(c))
  {
    FirstUpsert(id, "");
    PairingEffect(id, credential);
    CalmStep(Execute(EMPTY_DISK, Upsert(id, "", PlainForm()), Calm()).0, PlainState(id),
             MarkPaired(id, credential, "i", "0.1.0", 1));
  }

  /** Everything works, except that the credentials are replaced and then reported as not written. */
  function Unflushed(): Faults {
    n => if n == 4 then FailsAfter else Works
  }

  /** What a torn deletion leaves of that device. */
  function TornState(id: string): State {
    State([PairedDevice(id).(paired := false)], map[])
  }

  lemma OnlyDeleted(id: string, credential: Bytes)
    ensures Effect(PairedState(id, credential), Delete(id)) == Some(State([], map[]))
  {
    var s := PairedState(id, credential);
    WithoutOne(s.devices, id, 0);
    assert s.devices[..0] + s.devices[1..] == [];
    assert s.secrets - {id} == map[];
  }

  lemma TornMeaning(d: Disk, id: string, credential: Bytes)
    ensures Meaning(d, PairedState(id, credential), Delete(id), Unflushed()) == TornState(id)
  {
    OnlyDeleted(id, credential);
    assert TornSecrets(Unflushed());
    assert Flagged([PairedDevice(id)], map[]) == TornState(id).devices;
  }

  /** A deletion can be torn: of that device, when the directory cannot be flushed after the credentials
      were replaced, the deletion reports an error and the device is still there without its credential. */
  lemma TearHappens(id: string, credential: Bytes)
    requires Strip(id) != [] && |credential| == 32
    ensures var d := PairedDisk(id, credential);
            && Stored(d, PairedState(id, credential)) && Good(PairedState(id, credential))
            && !Execute(d, Delete(id), Unflushed()).1.Returned?
            && ReadAfter(d, Delete(id), Unflushed(), [], Calm()) == Returned(Some(TornState(id)))
  {
    FirstPairing(id, credential);
    TornMeaning(PairedDisk(id, credential), id, credential);
    ReadsMeaning(PairedDisk(id, credential), PairedState(id, credential), Delete(id), Unflushed(), TornState(id));
  }

  /** An operation that was disturbed, and the next undisturbed read. */
  lemma ReadsMeaning(d: Disk, s: State, op: Op, f: Faults, t: State)
    requires Stored(d, s) && Sane(s) && Proper(op) && !Undisturbed(op, f) && Meaning(d, s, op, f) == t
    ensures !Execute(d, op, f).1.Returned? && ReadAfter(d, op, f, [], Calm()) == Returned(Some(t))
  {
    StepMeans(d, s, op, f);
    MeaningIsSane(d, s, op, f);
    ReadStep(Execute(d, op, f).0, t, Calm());
  }

  /** Everything works, except that the settings are replaced and then reported as not written. */
  function UnflushedSettings(): Faults {
    n => if n == 5 then FailsAfter else Works
  }

  function OrphanState(id: string, credential: Bytes): State {
    State([], map[id := credential])
  }

  lemma OrphanMeaning(d: Disk, id: string, credential: Bytes)
    ensures Meaning(d, PairedState(id, credential), Delete(id), UnflushedSettings()) == OrphanState(id, credential)
  {
    OnlyDeleted(id, credential);
    assert TornSettings(UnflushedSettings());
    assert Flagged([], map[id := credential]) == [];
  }

  /** A deletion can leave an orphaned credential: of that device, when the directory cannot be flushed after
      the settings were replaced, the credential is restored and the device is gone. */
  lemma OrphanHappens(id: string, credential: Bytes)
    requires Strip(id) != [] && |credential| == 32
    ensures var d := PairedDisk(id, credential);
            && !Execute(d, Delete(id), UnflushedSettings()).1.Returned?
            && ReadAfter(d, Delete(id), UnflushedSettings(), [], Calm())
               == Returned(Some(OrphanState(id, credential)))
            && !Owned(OrphanState(id, credential))
  {
    FirstPairing(id, credential);
    OrphanMeaning(PairedDisk(id, credential), id, credential);
    ReadsMeaning(PairedDisk(id, credential), PairedState(id, credential), Delete(id), UnflushedSettings(),
                 OrphanState(id, credential));
    assert id in OrphanState(id, credential).secrets;
  }
}
