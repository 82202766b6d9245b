/** Crash safety of the Deck's store: what the files mean after every operation, under every pattern of
    failed writes and crashes. */
module StoreSafety {
  import opened Common
  import opened DeckStore
  import opened StoreStates

  // ---------------------------------------------------------------- what the files mean

  /** A settings file shows the devices of `s`. Flags are set when the file is loaded, so those in the
      file do not matter. */
  predicate Shows(file: File<Settings>, s: State) {
    match file
    case Absent => s.devices == []
    case Unreadable => false
    case Document(x) => x.version == SCHEMA_VERSION && Flagged(x.devices, s.secrets) == s.devices
  }

  predicate Keeps(file: File<Secrets>, s: State) {
    file == Document(s.secrets) || (file.Absent? && s.secrets == map[])
  }

  predicate Carries(t: Transaction, s: State) {
    Shows(Document(t.settings), s) && t.secrets == s.secrets
  }

  /** The files hold `s`: in a pending transaction, whatever the other two say; or, without one, in
      the two documents, where a missing file stands for an empty one. */
  predicate Stored(d: Disk, s: State) {
    if d.transaction.Absent? then Shows(d.settings, s) && Keeps(d.secrets, s)
    else d.transaction.Document? && Carries(d.transaction.value, s)
  }

  /** Every document of a sane state loads to that state. */
  lemma CarriedReloads(t: Transaction, s: State)
    requires Sane(s) && Carries(t, s)
    ensures Decodable(t)
  {
    SaneReloads(s, t.settings.devices);
  }

  lemma StoredIsSeen(d: Disk, s: State)
    requires Stored(d, s) && Sane(s) && d.transaction.Absent?
    ensures Load(d) == Some(s.devices) && Snapshot(d) == Some(s)
  {
    assert ReadSecrets(d) == Some(s.secrets);
    if d.settings.Document? {
      SaneReloads(s, d.settings.value.devices);
    }
  }

  // ---------------------------------------------------------------- recovery and commit

  /** However recovery is cut short, the meaning of the files does not change; if it completes, the
      transaction is gone. */
  lemma RecoverKeeps(d: Disk, s: State, f: Faults)
    requires Stored(d, s) && Sane(s)
    ensures var (r, o) := Recover(d, f);
            Stored(r, s) && (o == Done ==> r.transaction.Absent?)
  {
    if !d.transaction.Absent? {
      CarriedReloads(d.transaction.value, s);
    }
  }

  /** A commit that is undone: a write of one of the two documents fails, and the transaction is removed
      after the credentials, if they were written, are restored. */
  predicate RolledBack(f: Faults) {
    && f(3) == Works && TakesEffect(f(6))
    && (|| OutcomeOf(f(4)) == Raised
        || (f(4) == Works && OutcomeOf(f(5)) == Raised && f(7) == Works))
  }

  predicate CommitTakes(f: Faults) {
    TakesEffect(f(3)) && !RolledBack(f)
  }

  /** The credentials are replaced, but reported as not written; so the rollback leaves them. */
  predicate TornSecrets(f: Faults) {
    RolledBack(f) && f(4) == FailsAfter
  }

  /** The settings are replaced, but reported as not written; so the rollback restores only the
      credentials. */
  predicate TornSettings(f: Faults) {
    RolledBack(f) && f(4) == Works && f(5) == FailsAfter
  }

  /** What a commit of `t` over `s` leaves. */
  function Committed(s: State, t: State, f: Faults): State {
    if CommitTakes(f) then Shown(t)
    else if TornSecrets(f) then Shown(State(s.devices, t.secrets))
    else if TornSettings(f) then Shown(State(t.devices, s.secrets))
    else s
  }

  /** However a commit fails or is cut short, the files mean the new state if the transaction was written
      and not rolled back, and otherwise the old one, unless the rollback was torn. If the commit
      completes, no transaction is left. */
  lemma CommitLeaves(d: Disk, s: State, t: State, f: Faults)
    requires Stored(d, s) && d.transaction.Absent?
    ensures var (c, o) := Commit(d, AsTransaction(t), s.secrets, f);
            && Stored(c, Committed(s, t, f))
            && (o == Done ==> CommitTakes(f) && c.transaction.Absent?)
  {
    if d.settings.Document? {
      FlaggedTwice(d.settings.value.devices, s.secrets, t.secrets);
    }
  }

  // ---------------------------------------------------------------- one operation

  /** No transaction is pending, or it is rolled forward and removed. */
  predicate Recovers(d: Disk, f: Faults) {
    d.transaction.Absent? || (f(0) == Works && f(1) == Works && f(2) == Works)
  }

  /** What the files mean after an operation. */
  function Meaning(d: Disk, s: State, op: Op, f: Faults): State {
    if !Recovers(d, f) || Effect(s, op).None? || op.Read? then s
    else if op.Upsert? then if TakesEffect(f(3)) then Goal(s, op).value else s
    else Committed(s, Effect(s, op).value, f)
  }

  /** All file operations that it needs work. */
  predicate Undisturbed(op: Op, f: Faults) {
    || op.Read?
    || (op.Upsert? && f(3) == Works)
    || (!op.Upsert? && f(3) == Works && f(4) == Works && f(5) == Works && f(6) == Works)
  }

  lemma RecoveryCompletes(d: Disk, s: State, f: Faults)
    requires Stored(d, s) && Sane(s)
    ensures Recover(d, f).1 == Done <==> Recovers(d, f)
  {
    if d.transaction.Document? {
      CarriedReloads(d.transaction.value, s);
    }
  }

  /** What an operation answers: success exactly if recovery completes, it is not refused, and its file
      operations work; and then its effect is stored, and a read has seen the state. */
  predicate Answers(d: Disk, s: State, op: Op, f: Faults, r: Reply) {
    && (r.Returned? <==> Recovers(d, f) && Effect(s, op).Some? && Undisturbed(op, f))
    && (r.Returned? ==> Goal(s, op) == Some(Meaning(d, s, op, f)) && r.seen == if op.Read? then Some(s) else None)
  }

  lemma UpsertStep(d: Disk, s: State, op: Op, f: Faults)
    requires Stored(d, s) && Sane(s) && op.Upsert?
    ensures var (c, r) := Execute(d, op, f);
            Stored(c, Meaning(d, s, op, f)) && Answers(d, s, op, f, r)
  {
    RecoverKeeps(d, s, f);
    RecoveryCompletes(d, s, f);
    if Recovers(d, f) {
      StoredIsSeen(Recover(d, f).0, s);
    }
  }

  lemma CommitStep(d: Disk, s: State, op: Op, f: Faults)
    requires Stored(d, s) && Sane(s) && (op.Delete? || op.MarkPaired?)
    ensures var (c, r) := Execute(d, op, f);
            Stored(c, Meaning(d, s, op, f)) && Answers(d, s, op, f, r)
  {
    RecoverKeeps(d, s, f);
    RecoveryCompletes(d, s, f);
    if Recovers(d, f) {
      StoredIsSeen(Recover(d, f).0, s);
      if Effect(s, op).Some? {
        CommitLeaves(Recover(d, f).0, s, Effect(s, op).value, f);
        CommitCompletes(Recover(d, f).0, AsTransaction(Effect(s, op).value), s.secrets, f);
      }
    }
  }

  lemma CommitCompletes(d: Disk, t: Transaction, previous: Secrets, f: Faults)
    ensures Commit(d, t, previous, f).1 == Done <==> f(3) == Works && f(4) == Works && f(5) == Works && f(6) == Works
  {
  }

  /** Some file operation is cut short. */
  ghost predicate Crashing(f: Faults) {
    exists i :: 0 <= i < 8 && f(i) in {CrashesBefore, CrashesAfter}
  }

  /** Some file operation reports an error. */
  ghost predicate Erring(f: Faults) {
    exists i :: 0 <= i < 8 && f(i) in {Fails, FailsAfter}
  }

  ghost predicate Tells(f: Faults, o: Outcome) {
    (o == Crashed ==> Crashing(f)) && (o == Raised ==> Erring(f))
  }

  /** A process dies only in a crash; and an operation that is not refused fails only if a file operation
      reports an error. */
  lemma RepliesTell(d: Disk, s: State, op: Op, f: Faults)
    requires Stored(d, s) && Sane(s)
    ensures var r := Execute(d, op, f).1;
            (r.Died? ==> Crashing(f)) && (r.Failed? && Effect(s, op).Some? ==> Erring(f))
  {
    RecoveryTells(d, s, f);
    RecoveryCompletes(d, s, f);
    if Recovers(d, f) {
      RecoverKeeps(d, s, f);
      StoredIsSeen(Recover(d, f).0, s);
      OperationTells(Recover(d, f).0, s, op, f);
      RecoveredFirst(d, op, f);
    }
  }

  /** After recovery an operation goes on as on the recovered files. */
  lemma RecoveredFirst(d: Disk, op: Op, f: Faults)
    requires Recover(d, f).1 == Done && Recover(d, f).0.transaction.Absent?
    ensures Execute(d, op, f) == Execute(Recover(d, f).0, op, f)
  {
  }

  lemma OperationTells(d: Disk, s: State, op: Op, f: Faults)
    requires d.transaction.Absent? && Load(d) == Some(s.devices) && Snapshot(d) == Some(s)
    ensures var r := Execute(d, op, f).1;
            (r.Died? ==> Crashing(f)) && (r.Failed? && Effect(s, op).Some? ==> Erring(f))
  {
    if op.Upsert? {
      WriteTells(f, 3);
    } else if !op.Read? && Effect(s, op).Some? {
      CommitTells(d, AsTransaction(Effect(s, op).value), s.secrets, f);
    }
  }

  lemma WriteTells(f: Faults, i: nat)
    requires i < 8
    ensures Tells(f, OutcomeOf(f(i)))
  {
  }

  lemma RecoveryTells(d: Disk, s: State, f: Faults)
    requires Stored(d, s) && Sane(s)
    ensures Tells(f, Recover(d, f).1)
  {
    if d.transaction.Document? {
      CarriedReloads(d.transaction.value, s);
      WriteTells(f, 0);
      WriteTells(f, 1);
      WriteTells(f, 2);
    }
  }

  lemma CommitTells(d: Disk, t: Transaction, previous: Secrets, f: Faults)
    ensures Tells(f, Commit(d, t, previous, f).1)
  {
    WriteTells(f, 3);
    WriteTells(f, 4);
    WriteTells(f, 5);
    WriteTells(f, 6);
    WriteTells(f, 7);
  }

  lemma ReadStep(d: Disk, s: State, f: Faults)
    requires Stored(d, s) && Sane(s)
    ensures var (c, r) := Execute(d, Read, f);
            Stored(c, s) && Answers(d, s, Read, f, r)
  {
    RecoverKeeps(d, s, f);
    RecoveryCompletes(d, s, f);
    if Recovers(d, f) {
      StoredIsSeen(Recover(d, f).0, s);
    }
  }

  /** Under every fault pattern, the files afterwards mean exactly what `Meaning` tells from the faults, and
      the answer is a success exactly if nothing was in the way. */
  lemma StepMeans(d: Disk, s: State, op: Op, f: Faults)
    requires Stored(d, s) && Sane(s)
    ensures var (c, r) := Execute(d, op, f);
            Stored(c, Meaning(d, s, op, f)) && Answers(d, s, op, f, r)
  {
    match op
    case Read => ReadStep(d, s, f);
    case Upsert(_, _, _) => UpsertStep(d, s, op, f);
    case _ => CommitStep(d, s, op, f);
  }

  // ---------------------------------------------------------------- when an operation is atomic

  /** The device already has the host metadata that the pairing brings. */
  predicate SameMetadata(d: Device, op: Op)
    requires op.MarkPaired?
  {
    && d.hostId == Some(op.hostId) && d.hostVersion == Some(op.hostVersion)
    && d.protocolVersion == Some(op.protocolVersion)
  }

  /** A torn commit of this operation shows: for a deletion, if the device was paired; for a pairing, if
      it brings both a new credential and new host metadata. */
  predicate Exposed(s: State, op: Op) {
    match op
    case Delete(id) => id in s.secrets
    case MarkPaired(id, credential, _, _, _) =>
      && !(id in s.secrets && s.secrets[id] == credential)
      && exists i :: 0 <= i < |s.devices| && s.devices[i].id == id && !SameMetadata(s.devices[i], op)
    case _ => false
  }

  /** An operation on a good state happens entirely or not at all if and only if its commit is not torn, or
      the tear does not show. */
  lemma AtomicIff(d: Disk, s: State, op: Op, f: Faults)
    requires Good(s)
    ensures Meaning(d, s, op, f) == s || Effect(s, op) == Some(Meaning(d, s, op, f))
       <==> !(Recovers(d, f) && (TornSecrets(f) || TornSettings(f)) && Exposed(s, op))
  {
    if Effect(s, op).Some? {
      EffectIsGood(s, op);
      match op
      case Delete(id) => DeleteTorn(s, id);
      case MarkPaired(_, _, _, _, _) => MarkPairedTorn(s, op);
      case _ =>
    } else {
      NotExposed(s, op);
    }
  }

  lemma NotExposed(s: State, op: Op)
    requires Effect(s, op).None?
    ensures !Exposed(s, op)
  {
    if op.MarkPaired? {
      MarkPairedWrites(s, op);
    }
  }

  /** The two states a torn commit can leave. */
  function MixedSecrets(s: State, t: State): State {
    Shown(State(s.devices, t.secrets))
  }

  function MixedSettings(s: State, t: State): State {
    Shown(State(t.devices, s.secrets))
  }

  predicate OneOf(m: State, s: State, t: State) {
    m == s || m == t
  }

  lemma DeleteTorn(s: State, id: string)
    requires Good(s)
    ensures var t := Effect(s, Delete(id)).value;
            && (OneOf(MixedSecrets(s, t), s, t) <==> id !in s.secrets)
            && (OneOf(MixedSettings(s, t), s, t) <==> id !in s.secrets)
  {
    var t := Effect(s, Delete(id)).value;
    if id !in s.secrets {
      assert t.secrets == s.secrets;
      EffectIsShown(s, Delete(id));
    } else {
      assert t.secrets != s.secrets;
      DeletedDiffers(s, id);
    }
  }

  /** A deletion of an existing device changes the list of identifiers. */
  lemma DeletedDiffers(s: State, id: string)
    requires Owned(s) && id in s.secrets
    ensures forall a :: Flagged(s.devices, a) != Without(s.devices, id)
    ensures forall a :: Flagged(Without(s.devices, id), a) != s.devices
  {
    var kept := Without(s.devices, id);
    WithoutFewer(s.devices, id);
    var i :| 0 <= i < |s.devices| && s.devices[i].id == id;
    assert |kept| < |s.devices|;
  }

  lemma {:induction false} WithoutFewer(ds: seq<Device>, id: string)
    ensures |Without(ds, id)| <= |ds|
    ensures (exists i :: 0 <= i < |ds| && ds[i].id == id) ==> |Without(ds, id)| < |ds|
  {
    if ds != [] {
      WithoutFewer(ds[1..], id);
      if ds[0].id != id && exists i :: 0 <= i < |ds| && ds[i].id == id {
        var i :| 0 <= i < |ds| && ds[i].id == id;
        assert ds[1..][i - 1].id == id;
      }
    }
  }

  lemma MarkPairedTorn(s: State, op: Op)
    requires Good(s) && op.MarkPaired? && Effect(s, op).Some?
    ensures var t := Effect(s, op).value;
            && (OneOf(MixedSecrets(s, t), s, t) <==> !Exposed(s, op))
            && (OneOf(MixedSettings(s, t), s, t) <==> !Exposed(s, op))
  {
    var k := Find(s.devices, op.id);
    var t := Effect(s, op).value;
    assert Exposed(s, op) <==> t.secrets != s.secrets && !SameMetadata(s.devices[k], op) by {
      MarkedSecrets(s, op);
      forall i | 0 <= i < |s.devices| && s.devices[i].id == op.id ensures i == k {
      }
    }
    MarkedDevices(s, op);
    EffectIsShown(s, op);
  }

  lemma MarkedSecrets(s: State, op: Op)
    requires op.MarkPaired? && Effect(s, op).Some?
    ensures Effect(s, op).value.secrets == s.secrets <==> op.id in s.secrets && s.secrets[op.id] == op.credential
  {
    var t := Effect(s, op).value;
    if op.id in s.secrets && s.secrets[op.id] == op.credential {
      assert t.secrets == s.secrets;
    } else {
      assert op.id in t.secrets && t.secrets[op.id] == op.credential;
    }
  }

  /** Up to flags, a pairing changes the devices exactly if the metadata is new. */
  lemma MarkedDevices(s: State, op: Op)
    requires Good(s) && op.MarkPaired? && Effect(s, op).Some?
    ensures var t, k := Effect(s, op).value, Find(s.devices, op.id);
            && (Flagged(s.devices, t.secrets) == t.devices <==> SameMetadata(s.devices[k], op))
            && (Flagged(t.devices, s.secrets) == s.devices <==> SameMetadata(s.devices[k], op))
  {
    var t, k := Effect(s, op).value, Find(s.devices, op.id);
    var a, b := Flagged(s.devices, t.secrets), Flagged(t.devices, s.secrets);
    forall i | 0 <= i < |s.devices| && i != k ensures a[i] == t.devices[i] && b[i] == s.devices[i] {
      FlagsAreRight(s, i);
    }
    FlagsAreRight(s, k);
    assert a[k] == t.devices[k] <==> SameMetadata(s.devices[k], op);
    assert b[k] == s.devices[k] <==> SameMetadata(s.devices[k], op);
  }

}
