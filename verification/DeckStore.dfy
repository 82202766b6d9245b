/** The Deck's settings store: two documents that must change together, a write-ahead transaction
    document, and writes that can fail or be cut short by a crash. */
module DeckStore {
  import opened Common
  import opened Validation

  const SCHEMA_VERSION: int := 2

  datatype Device = Device(
    id: string, name: string, address: string, mac: string, macOverridden: bool, port: int, broadcast: Option<string>,
    hostId: Option<string>, hostVersion: Option<string>, protocolVersion: Option<int>, paired: bool)

  datatype Settings = Settings(version: int, devices: seq<Device>)

  type Secrets = map<string, Bytes>

  datatype Transaction = Transaction(settings: Settings, secrets: Secrets)

  /** A file is missing, not parseable, or holds a document. */
  datatype File<+T> = Absent | Unreadable | Document(value: T)

  datatype Disk = Disk(settings: File<Settings>, secrets: File<Secrets>, transaction: File<Transaction>)

  /** What the store means to its clients. */
  datatype State = State(devices: seq<Device>, secrets: Secrets)

  // ---------------------------------------------------------------- faults

  /** What happens to one file operation. A write replaces the file and a removal unlinks it, or neither
      has any effect; either can take effect and then report an error, when the directory cannot be
      flushed; and the process can die before or after. */
  datatype Fault = Works | Fails | FailsAfter | CrashesBefore | CrashesAfter

  /** The fault of each operation, by its place in the code. */
  type Faults = nat -> Fault

  datatype Outcome = Done | Raised | Crashed

  predicate TakesEffect(f: Fault) {
    f == Works || f == FailsAfter || f == CrashesAfter
  }

  function OutcomeOf(f: Fault): Outcome {
    match f
    case Works => Done
    case Fails => Raised
    case FailsAfter => Raised
    case CrashesBefore => Crashed
    case CrashesAfter => Crashed
  }

  // ---------------------------------------------------------------- decoding

  function ValidDevice(d: Device): Option<Device> {
    var name := Strip(d.name);
    var address, mac := ValidateAddress(d.address), NormalizeMac(d.mac);
    var port, broadcast := ValidatePort(Integer(d.port), false), ValidateBroadcast(BroadcastText(d.broadcast));
    if Strip(d.id) == [] || name == [] || address.None? || mac.None? || port.None? || broadcast.None? then None
    else Some(d.(name := name, address := address.value, mac := mac.value, port := port.value,
                 broadcast := broadcast.value))
  }

  /** All results of `g`, unless one is missing. */
  function Traverse<A>(xs: seq<A>, g: A -> Option<A>): Option<seq<A>> {
    if xs == [] then Some([])
    else
      var first, rest := g(xs[0]), Traverse(xs[1..], g);
      if first.None? || rest.None? then None else Some([first.value] + rest.value)
  }

  /** A validated device, with its flag set from the credentials. */
  function DecodeDevice(d: Device, secrets: Secrets): Option<Device> {
    var v := ValidDevice(d);
    if v.None? then None else Some(v.value.(paired := v.value.id in secrets))
  }

  function DecodeDevices(ds: seq<Device>, secrets: Secrets): Option<seq<Device>> {
    Traverse(ds, (d: Device) => DecodeDevice(d, secrets))
  }

  function DecodeSettings(s: Settings, secrets: Secrets): Option<seq<Device>> {
    if s.version != SCHEMA_VERSION then None else DecodeDevices(s.devices, secrets)
  }

  predicate ValidSecrets(secrets: Secrets) {
    forall id :: id in secrets ==> id != [] && |secrets[id]| == 32
  }

  function ReadSecrets(d: Disk): Option<Secrets> {
    match d.secrets
    case Absent => Some(map[])
    case Unreadable => None
    case Document(m) => if ValidSecrets(m) then Some(m) else None
  }

  /** `load`, after recovery. Without a settings file the secrets are not read. */
  function Load(d: Disk): Option<seq<Device>> {
    match d.settings
    case Absent => Some([])
    case Unreadable => None
    case Document(s) =>
      var secrets := ReadSecrets(d);
      if secrets.None? then None else DecodeSettings(s, secrets.value)
  }

  /** `snapshot`, after recovery. */
  function Snapshot(d: Disk): Option<State> {
    var secrets, devices := ReadSecrets(d), Load(d);
    if secrets.None? || devices.None? then None else Some(State(devices.value, secrets.value))
  }

  // ---------------------------------------------------------------- recovery and commit

  function WithSecrets(d: Disk, secrets: Secrets, f: Fault): Disk {
    if TakesEffect(f) then d.(secrets := Document(secrets)) else d
  }

  function WithSettings(d: Disk, settings: Settings, f: Fault): Disk {
    if TakesEffect(f) then d.(settings := Document(settings)) else d
  }

  function WithTransaction(d: Disk, t: Transaction, f: Fault): Disk {
    if TakesEffect(f) then d.(transaction := Document(t)) else d
  }

  function WithoutTransaction(d: Disk, f: Fault): Disk {
    if TakesEffect(f) then d.(transaction := Absent) else d
  }

  predicate Decodable(t: Transaction) {
    ValidSecrets(t.secrets) && DecodeSettings(t.settings, t.secrets).Some?
  }

  /** Rolls a transaction forward. Operations 0 to 2. */
  function Recover(d: Disk, f: Faults): (Disk, Outcome) {
    match d.transaction
    case Absent => (d, Done)
    case Unreadable => (d, Raised)
    case Document(t) =>
      if !Decodable(t) then (d, Raised)
      else
        var d1 := WithSecrets(d, t.secrets, f(0));
        if f(0) != Works then (d1, OutcomeOf(f(0)))
        else
          var d2 := WithSettings(d1, t.settings, f(1));
          if f(1) != Works then (d2, OutcomeOf(f(1))) else (WithoutTransaction(d2, f(2)), OutcomeOf(f(2)))
  }

  /** An exception is propagating while the transaction is removed. */
  function Abandon(d: Disk, f: Fault): (Disk, Outcome) {
    (WithoutTransaction(d, f), if OutcomeOf(f) == Crashed then Crashed else Raised)
  }

  /** Writes both documents under a transaction, rolling back on failure. Operations 3 to 7. */
  function Commit(d: Disk, t: Transaction, previous: Secrets, f: Faults): (Disk, Outcome) {
    var d1 := WithTransaction(d, t, f(3));
    if f(3) != Works then (d1, OutcomeOf(f(3)))
    else
      var d2 := WithSecrets(d1, t.secrets, f(4));
      if OutcomeOf(f(4)) == Crashed then (d2, Crashed)
      else if OutcomeOf(f(4)) == Raised then Abandon(d2, f(6))
      else
        var d3 := WithSettings(d2, t.settings, f(5));
        if OutcomeOf(f(5)) == Crashed then (d3, Crashed)
        else if OutcomeOf(f(5)) == Raised then
          var d4 := WithSecrets(d3, previous, f(7));
          if f(7) == Works then Abandon(d4, f(6)) else (d4, OutcomeOf(f(7)))
        else (WithoutTransaction(d3, f(6)), OutcomeOf(f(6)))
  }

  // ---------------------------------------------------------------- operations

  /** The form fields of a device; missing texts are empty. */
  datatype Form = Form(name: string, address: string, mac: string, macOverridden: bool, port: PortValue,
                       broadcast: string)

  datatype Op =
    | Read
    | Upsert(given: string, uuid: string, form: Form)
    | Delete(id: string)
    | MarkPaired(id: string, credential: Bytes, hostId: string, hostVersion: string, protocolVersion: int)
  {
    /** The identifier an upsert writes: the one given, or a new one. */
    function Target(): string
      requires Upsert?
    {
      if given == [] then uuid else given
    }
  }

  datatype Reply = Returned(seen: Option<State>) | Failed | Died

  function Build(form: Form, id: string): Option<Device> {
    var name := Strip(form.name);
    var address, mac := ValidateAddress(form.address), NormalizeMac(form.mac);
    var port, broadcast := ValidatePort(form.port, true), ValidateBroadcast(form.broadcast);
    if name == [] || address.None? || mac.None? || port.None? || broadcast.None? then None
    else Some(Device(id, name, address.value, mac.value, form.macOverridden, port.value, broadcast.value, None, None,
                     None, false))
  }

  /** The position of the first device with this identifier, or the number of devices. */
  function Find(ds: seq<Device>, id: string): (k: nat)
    ensures k <= |ds| && (k < |ds| ==> ds[k].id == id)
    ensures forall i :: 0 <= i < k ==> ds[i].id != id
  {
    if ds == [] || ds[0].id == id then 0 else 1 + Find(ds[1..], id)
  }

  function Put(ds: seq<Device>, device: Device): seq<Device> {
    var k := Find(ds, device.id);
    if k == |ds| then ds + [device]
    else ds[k := device.(hostId := ds[k].hostId, hostVersion := ds[k].hostVersion,
                         protocolVersion := ds[k].protocolVersion, paired := ds[k].paired)]
  }

  function Without(ds: seq<Device>, id: string): seq<Device> {
    if ds == [] then []
    else if ds[0].id == id then Without(ds[1..], id)
    else [ds[0]] + Without(ds[1..], id)
  }

  /** What an operation does to the meaning of the store; `None` if it is refused. */
  function Effect(s: State, op: Op): Option<State> {
    match op
    case Read => Some(s)
    case Upsert(_, _, form) =>
      var device := Build(form, op.Target());
      if device.None? then None else Some(s.(devices := Put(s.devices, device.value)))
    case Delete(id) => Some(State(Without(s.devices, id), s.secrets - {id}))
    case MarkPaired(id, credential, hostId, hostVersion, protocolVersion) =>
      var k := Find(s.devices, id);
      if k == |s.devices| then None
      else
        var d := s.devices[k].(hostId := Some(hostId), hostVersion := Some(hostVersion),
                               protocolVersion := Some(protocolVersion), paired := true);
        Some(State(s.devices[k := d], s.secrets[id := credential]))
  }

  function ReplyOf(o: Outcome): Reply {
    match o
    case Done => Returned(None)
    case Raised => Failed
    case Crashed => Died
  }

  function AsTransaction(s: State): Transaction {
    Transaction(Settings(SCHEMA_VERSION, s.devices), s.secrets)
  }

  /** One operation against the files, under the given faults. */
  function Execute(d: Disk, op: Op, f: Faults): (Disk, Reply) {
    var (r, o) := Recover(d, f);
    if o != Done then (r, ReplyOf(o))
    else if op.Upsert? then
      var devices, device := Load(r), Build(op.form, op.Target());
      if devices.None? || device.None? then (r, Failed)
      else (WithSettings(r, Settings(SCHEMA_VERSION, Put(devices.value, device.value)), f(3)), ReplyOf(OutcomeOf(f(3))))
    else
      var s := Snapshot(r);
      if s.None? then (r, Failed)
      else if op.Read? then (r, Returned(s))
      else
        var t := Effect(s.value, op);
        if t.None? then (r, Failed)
        else
          var (c, p) := Commit(r, AsTransaction(t.value), s.value.secrets, f);
          (c, ReplyOf(p))
  }

  // ---------------------------------------------------------------- the mutable store

  class Store {
    var settings: File<Settings>
    var secrets: File<Secrets>
    var transaction: File<Transaction>

    ghost function View(): Disk
      reads this
    {
      Disk(settings, secrets, transaction)
    }

    method WriteSettings(s: Settings, f: Fault) returns (o: Outcome)
      modifies this`settings
      ensures View() == WithSettings(old(View()), s, f) && o == OutcomeOf(f)
    {
      if TakesEffect(f) { settings := Document(s); }
      o := OutcomeOf(f);
    }

    method WriteSecrets(s: Secrets, f: Fault) returns (o: Outcome)
      modifies this`secrets
      ensures View() == WithSecrets(old(View()), s, f) && o == OutcomeOf(f)
    {
      if TakesEffect(f) { secrets := Document(s); }
      o := OutcomeOf(f);
    }

    method RemoveTransaction(f: Fault) returns (o: Outcome)
      modifies this`transaction
      ensures View() == WithoutTransaction(old(View()), f) && o == OutcomeOf(f)
    {
      if TakesEffect(f) { transaction := Absent; }
      o := OutcomeOf(f);
    }

    method RecoverTransaction(f: Faults) returns (o: Outcome)
      modifies this
      ensures (View(), o) == Recover(old(View()), f)
    {
      if transaction.Absent? {
        return Done;
      }
      if transaction.Unreadable? {
        return Raised;
      }
      var t := transaction.value;
      if !ValidSecrets(t.secrets) || DecodeSettings(t.settings, t.secrets).None? {
        return Raised;
      }
      o := WriteSecrets(t.secrets, f(0));
      if o != Done { return; }
      o := WriteSettings(t.settings, f(1));
      if o != Done { return; }
      o := RemoveTransaction(f(2));
    }

    /** A settings write that raises is the last step of the guarded block, so the rollback has at
        most the credentials to restore. */
    method CommitTransaction(t: Transaction, previous: Secrets, f: Faults) returns (o: Outcome)
      modifies this
      ensures (View(), o) == Commit(old(View()), t, previous, f)
    {
      if TakesEffect(f(3)) { transaction := Document(t); }
      o := OutcomeOf(f(3));
      if o != Done { return; }
      var credentialsWritten := false;
      o := WriteSecrets(t.secrets, f(4));
      if o == Done {
        credentialsWritten := true;
        o := WriteSettings(t.settings, f(5));
      }
      if o == Crashed { return; }
      if o == Raised {
        if credentialsWritten {
          o := WriteSecrets(previous, f(7));
          if o != Done { return; }
        }
        o := RemoveTransaction(f(6));
        return if o == Crashed then Crashed else Raised;
      }
      o := RemoveTransaction(f(6));
    }

    method SnapshotStore(f: Faults) returns (r: Reply)
      modifies this
      ensures (View(), r) == Execute(old(View()), Read, f)
    {
      var o := RecoverTransaction(f);
      if o != Done { return ReplyOf(o); }
      var s := Snapshot(Disk(settings, secrets, transaction));
      return if s.None? then Failed else Returned(s);
    }

    method UpsertDevice(given: string, uuid: string, form: Form, f: Faults) returns (r: Reply)
      modifies this
      ensures (View(), r) == Execute(old(View()), Upsert(given, uuid, form), f)
    {
      var o := RecoverTransaction(f);
      if o != Done { return ReplyOf(o); }
      var loaded := Load(Disk(settings, secrets, transaction));
      if loaded.None? { return Failed; }
      var device := Build(form, if given == [] then uuid else given);
      if device.None? { return Failed; }
      var devices, added := loaded.value, device.value;
      var k := Find(devices, added.id);
      if k < |devices| {
        var existing := devices[k];
        added := added.(hostId := existing.hostId, hostVersion := existing.hostVersion);
        added := added.(protocolVersion := existing.protocolVersion, paired := existing.paired);
        devices := devices[k := added];
      } else {
        devices := devices + [added];
      }
      o := WriteSettings(Settings(SCHEMA_VERSION, devices), f(3));
      return ReplyOf(o);
    }

    method DeleteDevice(id: string, f: Faults) returns (r: Reply)
      modifies this
      ensures (View(), r) == Execute(old(View()), Delete(id), f)
    {
      var o := RecoverTransaction(f);
      if o != Done { return ReplyOf(o); }
      var s := Snapshot(Disk(settings, secrets, transaction));
      if s.None? { return Failed; }
      var kept := State(Without(s.value.devices, id), s.value.secrets - {id});
      o := CommitTransaction(AsTransaction(kept), s.value.secrets, f);
      return ReplyOf(o);
    }

    method MarkPairedDevice(id: string, credential: Bytes, hostId: string, hostVersion: string, protocolVersion: int,
                            f: Faults)
      returns (r: Reply)
      modifies this
      ensures (View(), r) == Execute(old(View()), MarkPaired(id, credential, hostId, hostVersion, protocolVersion), f)
    {
      var o := RecoverTransaction(f);
      if o != Done { return ReplyOf(o); }
      var s := Snapshot(Disk(settings, secrets, transaction));
      if s.None? { return Failed; }
      var k := Find(s.value.devices, id);
      if k == |s.value.devices| { return Failed; }
      var device := s.value.devices[k];
      device := device.(hostId := Some(hostId), hostVersion := Some(hostVersion));
      device := device.(protocolVersion := Some(protocolVersion), paired := true);
      var next := State(s.value.devices[k := device], s.value.secrets[id := credential]);
      o := CommitTransaction(AsTransaction(next), s.value.secrets, f);
      return ReplyOf(o);
    }
  }
}
