# Decky My Rig: verified model of the pairing, authentication and storage protocol

This project models the parts of Decky My Rig where state must survive failures, and proves what
they promise over whole runs. A Windows host pairs with a Steam Deck through a six-digit code, then
accepts signed status and shutdown requests. The Deck keeps its devices and credentials in files that
must change together. `dafny verify dfyconfig.toml` checks everything.

| files | what they model |
|---|---|
| `Pairing`, `PairingLimits`, `PairingAnswers` | the host's pairing code: sessions, failure counters, completion cache (`host/src/pairing.rs`) |
| `Authentication` | clock window, nonce memory and failure limiter (`host/src/auth.rs`) |
| `Host` | the service and its handlers, as a class over a persisted identity (`host/src/server.rs`, `management.rs`, `storage/mod.rs`) |
| `HostRuns`, `HostState`, `HostPromises`, `HostFailures`, `HostReplay`, `HostAnswers` | the service as a state machine, its invariants, what it promises and what it answers in every run |
| `Handshake` | pairing from both ends (`client.py`, `server.rs`) |
| `DeckStore`, `StoreStates`, `StoreSafety`, `StoreRuns`, `Validation` | the Deck's settings store with its write-ahead transaction, and the validators (`store.py`, `validation.py`) |
| `Wire`, `Messages`, `Utf8` | the Deck's Protobuf codec (`protobuf.py`) |
| `Canonical` | the signed byte strings, once as Rust writes them and once as Python does |
| `Versions` | the two version parsers and comparators |
| `Strings`, `Common` | numerals, cutting at dots and upper case; bytes, options and the cryptographic library |

Every class method is proved equal to a step function on values, and the theorems are about those
functions. A run is any list of events; an event that cannot happen leaves the state alone, so the
theorems quantify over all lists.

## Assumptions

- One clock never runs backwards. The host counts it in nanoseconds for code lifetimes and in whole
  seconds for requests and for the recorded creation of a code.
- A handler that keeps its locks is one step. `authenticate` is three steps and a first pair request
  is two, because the code releases its locks in between; other events may fall there.
- A save of the host identity takes full effect or fails without one. Replacing or removing a file of the
  Deck does so too, or takes effect and then reports an error, because the directory is flushed last. A
  crash may fall before or after any of these.
- Which characters Python takes as decimal digits, and how it upper-cases, is fixed on ASCII only. `int` refuses
  more than 4300 digits, its default.
- SHA-256, HMAC (RFC 2104), HKDF (RFC 5869), ChaCha20-Poly1305 (RFC 8439) and SPAKE2 are arbitrary
  functions or arbitrary results. Drawn credentials are new; session identifiers may collide. Only
  `Handshake` assumes more: that decryption undoes encryption, and that both ends derived the same secret.

## Results that differ from the documentation

- The repository's README, `SECURITY.md` and `docs/ARCHITECTURE.md` limit failed confirmations to five per source and
  code. The code tests the limit only when a session is opened. An address can earn twelve
  (`TwelveFailuresHappen`), never more (`LimitsHold`), and a start keeps the promise of five exactly when
  failures and open sessions together are below five (`FiveFailuresExceededIff`); if every start does, the
  promise holds throughout (`FiveFailuresHold`).
- A signed shutdown message reaches the power controller at most once if `authenticate` is not
  interrupted (`AtMostOnce`). If it is, every installation whose encryption works has runs that deliver a
  message twice: after a minute's delay between verification and the nonce ledger (`DelayHappens`), or when a re-pairing commits
  in that gap (`RepairingHappens`). A repeated delivery is always late in one of the two senses
  (`RepeatedDeliveryIsLate`). Being late is not enough, because another copy may have been accepted since:
  `SpendAcceptsIff` gives the exact condition.
- Within one process, `verify` alone accepts a request twice exactly when its timestamp was ahead of the
  clock (`AcceptedAgainIff`). The persisted ledger is what stops this for shutdown.
- `docs/ARCHITECTURE.md` promises that write failures roll back, without orphaned credentials or half-applied
  pairings. That holds if and only if no file is replaced and then reported as failed inside a commit, or the
  difference cannot show (`AtomicIff`): the rollback trusts the report. `TearHappens` and `OrphanHappens` are
  the inputs. Crashes alone never tear a commit.
- The store accepts a blank device identifier and a credential of any length, and then answers every
  later operation with an error (`StuckIff`, `BlankIdSticks`, `FirstPairing`). The plugin passes identifiers on
  unchecked; its client refuses a credential that is not 32 bytes long before it is stored.
- The two version comparators differ when the Deck reads both versions, or fails to convert one, and one
  has a component of 2^64 or more or a digit that is not ASCII (`ComparatorsAgreeIff`).
- The Deck signs requests whose method becomes ASCII in upper case, which the host refuses
  (`RequestSidesAgree`). No client sends one.

## Model

| member | source | states |
|---|---|---|
| HostReplay.AtMostOnce | host/src/server.rs:273-407 | in every run of requests, failed saves, re-pairings and restarts with uninterrupted authentication, no two deliveries to the power controller carry the same credential, timestamp and nonce |
| HostReplay.SpendAcceptsIff | host/src/server.rs:379-405 | in every run, a verified shutdown request is accepted if and only if its save succeeds and no earlier acceptance has its nonce, was made under the credential now in use, and is stamped inside the window |
| HostReplay.SpendIff | host/src/server.rs:386-406 | in every run, any verified request is authenticated if and only if it is not a shutdown, or its nonce can be saved and is not blocked; with its error otherwise; other requests touch neither identity, disk nor history |
| HostAnswers.FreshRequestPasses | host/src/server.rs:345-407 | in every run, a request signed with the credential in use, within sixty seconds and with a nonce no request carried before, is authenticated; a shutdown exactly if its nonce is saved |
| HostReplay.RepeatedDeliveryIsLate | host/src/server.rs:345-407 | with any interleaving, a message delivered twice had its nonce spent the second time after its credential was replaced or its clock window had passed |
| HostReplay.DelayHappens | host/src/server.rs:379-405 | every installation whose encryption works has a run, from its first start, in which a delay between verification and the ledger makes one message reach the power controller twice |
| HostReplay.RepairingHappens | host/src/server.rs:226-240 | likewise a run in which a re-pairing that commits in that gap does so |
| HostReplay.DelayDeliversTwice | host/src/server.rs:379-405 | from any paired state (`DelayHappens` reaches one), a fresh message stamped a full window ahead is delivered twice if a second copy waits a minute before the ledger |
| HostReplay.RepairingDeliversTwice | host/src/server.rs:226-240 | the same if a re-pairing commits, clearing the ledger, while the second copy waits (`RepairingHappens` reaches such a state) |
| HostReplay.RestartForgets | host/src/server.rs:273-343 | in every run, a shutdown accepted but not delivered before a restart is never delivered after it |
| HostReplay.AlwaysAccountable | host/src/server.rs:273-407 | in every reachable state memory's ledger holds every acceptance that still counts, the persisted ledger holds only acceptances under the credential in use, and each acceptance is dispatched at most once |
| Handshake.HandshakeSucceeds | decky/py_modules/decky_my_rig/client.py:38-89 | in every run, a client that opens a session and confirms it from the response within 300 seconds pairs, whatever else happens, if the session is not disturbed and the identity is saved: it decrypts exactly the credential that memory and disk hold, and both responses name the host |
| Handshake.ClientReadsStored | host/src/pairing.rs:247-270 | in every run, whoever knows the session's shared secret decrypts the response to a committed confirmation, with the metadata of the response itself, to exactly the stored credential |
| Handshake.RepeatGetsSame | decky/py_modules/decky_my_rig/client.py:91-97 | a repeated confirmation gets the same response, within 300 seconds and before the code is replaced |
| HostPromises.RepliesExactly | host/src/server.rs:186-250 | in every run, a confirmation is answered as paired exactly if it commits or repeats the completed one, and as a failed save exactly if only that stands in the way |
| HostPromises.PairedMeansStored | host/src/server.rs:186-250 | every successful pair response carries the credential memory and disk both hold, and the commit after a save never panics |
| HostPromises.LostResponseIsRepeated | host/src/server.rs:186-225 | repeating the same confirmation within 300 seconds and before the code is replaced gives the identical result and changes no identity |
| HostPromises.CommitsIff | host/src/server.rs:186-250 | in every run, a confirmation commits a credential if and only if its session is open and in time, the confirmation is right, the credential can be encrypted and the identity is saved |
| HostPromises.OneCredentialPerCode | host/src/pairing.rs:279-301 | after a commit, no confirmation commits again until the code is replaced or the service restarts |
| HostPromises.SessionsBelongToShownCode | host/src/server.rs:133-170 | an open session implies that memory, disk and the pairing state all show the live code, however the already-paired check and the start interleave |
| HostPromises.CodesExpire | host/src/management.rs:5-11 | sessions open at most 300 and credentials are issued at most 600 whole seconds after the recorded creation, over any number of restarts |
| HostAnswers.RestartedCodeAge | host/src/management.rs:5-31 | in every run, a restart that loads a code offers it exactly until 300 whole seconds after its recorded creation, and shows what is left of them |
| HostAnswers.InstallationOffersCode | host/src/service/windows.rs:60-73 | a fresh installation grants a first session exactly within 300 seconds, without a code being asked for, and shows the time left |
| HostAnswers.GenerateAnswers | host/src/management.rs:33-48 | a new code is stored, shown and live for 300 seconds with no sessions, or nothing changes if it cannot be saved |
| HostAnswers.TimeRunsDown | host/src/pairing.rs:138-140 | the time shown is what is left of 300 seconds, and runs down with the clock |
| HostAnswers.DispatchIff | host/src/server.rs:273-343 | exactly which authenticated requests reach the power controller, and which versions are remembered and saved |
| HostPromises.LimitsHold | host/src/pairing.rs:165-183 | under one code: at most 12 failures and 8 open sessions per address, 132 failures without an address, 128 sessions and 383 tracked sources in all |
| HostFailures.FiveFailuresHold | host/src/pairing.rs:165-183 | the documented five failures per address hold in every run in which each session opened for it found fewer than five failures and open sessions together |
| HostFailures.TwelveFailuresHappen | host/src/pairing.rs:165-245 | every installation has a run, from its first start, in which one address earns twelve failures under one code |
| HostPromises.RestartsSucceed | host/src/service/windows.rs:60-73 | the service always restarts from what it persisted, with the same identity and the same shown code |
| HostPromises.CredentialChangesOnlyByPairing | host/src/server.rs:226-240 | in every run, the credential in memory and on disk changes only when a pairing commits, to the one it issued, and the host id never changes |
| HostPromises.RecordedVersionsAreStrict | host/src/server.rs:323-343 | in every run, only strict versions are recorded, in memory and on disk |
| HostState.AlwaysReliable | host/src/server.rs:107-407 | the joint invariant of memory, disk, shown code, timing, budgets and completion cache holds in every state of every run |
| HostState.PersistedStep | host/src/server.rs:332-341 | every step, whatever saves fail, leaves memory equal to disk except for a ledger pruned at some past moment |
| HostState.MemoryIsPrunedDisk | host/src/server.rs:386-405 | in every run, all fields but the ledger agree, and memory's ledger is the disk's in the same order, pruned at some past moment; pruned now, the two are equal |
| HostState.ConfirmEffects | host/src/server.rs:186-250 | a confirmation either commits to memory, disk and code together, or changes only expired or refused sessions and the failure table |
| HostState.RestartKeepsAge | host/src/management.rs:5-11 | a live code after a restart was created less than a second after its recorded creation |
| HostState.RetainedTwice | host/src/server.rs:388-390 | pruning the ledger at a later time absorbs pruning at an earlier one |
| PairingLimits.FiveFailuresExceededIff | host/src/pairing.rs:165-183 | after a granted start, colliding identifier or not, wrong guesses on the open sessions exceed five failures if and only if failures plus open sessions, less one the start replaces, were already five |
| PairingLimits.CompletionFlagIsExact | host/src/server.rs:188-225 | `was_completed`, read before pruning, tells which branch a successful `finish` took, and then the session to commit is open |
| PairingAnswers.StartAnswers | host/src/pairing.rs:156-209 | opening a session is answered as expired, limited, invalid or with the host's message and the session identifier, each exactly under its condition on ages and counts |
| PairingAnswers.StartLeaves | host/src/pairing.rs:156-209 | and leaves exactly the live sessions, with the new one if it was granted |
| PairingAnswers.WrongConfirmation | host/src/pairing.rs:230-246 | a wrong confirmation closes its session, charges its source once, and is answered as limited exactly from the fifth on |
| PairingAnswers.RightConfirmationAnswers | host/src/pairing.rs:247-270 | the right one is answered with the drawn credential sealed under the shared secret and bound to the metadata, or with the error that prevents it, and is never charged |
| PairingAnswers.OtherConfirmation | host/src/pairing.rs:217-226 | without an open session, a confirmation is answered from the cache exactly if it repeats the completed one in time |
| PairingAnswers.AgedExactly | host/src/pairing.rs:121-132 | a loaded code is live exactly within the lifetime, and at most a second past it |
| PairingLimits.StartIsSound | host/src/pairing.rs:156-209 | a start keeps all budgets and the exclusion of sessions by a completion, with colliding session identifiers too |
| PairingLimits.FailedForSource | host/src/pairing.rs:236-245 | a failed confirmation moves one unit from open sessions to failures of its source, so the 8-bit counter never saturates, and no other source changes |
| PairingLimits.FinishIsSound | host/src/pairing.rs:211-271 | finishing keeps all budgets and the exclusion |
| PairingLimits.CommitIsSound | host/src/pairing.rs:279-301 | committing keeps all budgets and the exclusion |
| PairingLimits.CommitLeavesOne | host/src/pairing.rs:279-301 | committing an open session leaves exactly its completion, which pruning keeps, no session, and an expired code |
| PairingLimits.PrunedIsSound | host/src/pairing.rs:303-308 | pruning keeps all budgets and the exclusion |
| PairingLimits.AttemptsKeepExposure | host/src/pairing.rs:211-245 | no sequence of confirmations raises failures plus open sessions of a source |
| PairingLimits.EverySessionCanFail | host/src/pairing.rs:235-245 | wrong guesses can turn all open sessions of a source into failures |
| Pairing.PairingCode.StartForSource | host/src/pairing.rs:156-209 | updates the tables and answers as `Start` specifies |
| Pairing.PairingCode.FinishSession | host/src/pairing.rs:211-271 | updates the tables and answers as `Finish` specifies |
| Pairing.PairingCode.CommitSession | host/src/pairing.rs:279-301 | replaces all sessions by one completion and expires the code, or refuses an unknown session |
| Pairing.PairingCode.FromCodeWithAge | host/src/pairing.rs:121-132 | accepts exactly six ASCII digits, with the age capped just past the lifetime |
| Host.AppState.PairStart | host/src/server.rs:144-170 | opens a session as `OpenSession` specifies, touching only the code |
| Host.AppState.PairFinish | host/src/server.rs:186-250 | saves, reverts on failure, and commits as `FinishPairing` specifies |
| Host.AppState.GeneratePairingCode | host/src/management.rs:33-48 | replaces the code in memory, on disk and live only after a successful save |
| Host.AppState.AuthenticateSignature | host/src/server.rs:367-381 | changes only the authenticator, as `VerifyRequest` specifies |
| Host.AppState.SpendShutdownNonce | host/src/server.rs:386-405 | prunes, checks, records and saves the nonce, undoing the record if the save fails |
| Host.AppState.RecordClientVersion | host/src/server.rs:323-343 | records a well-formed version in memory only if it was saved |
| Host.AppState.StartService | host/src/service/windows.rs:60-73 | starts from the persisted identity exactly when its code is absent or six digits |
| Authentication.AcceptsExactly | host/src/auth.rs:157-189 | in every run, a request is accepted exactly when it is signed, inside the clock window, and no such request presented its nonce in the last 60 seconds; failures before it never matter |
| Authentication.FaultExactly | host/src/auth.rs:157-182 | which error a request earns on its own: its timestamp, then its encoding, then its signature |
| Authentication.AnswersExactly | host/src/auth.rs:157-189 | in every run a request is answered as a replay exactly if it has no fault but reuses a nonce, and a faulty one with its error or as limited |
| Authentication.SecondAcceptance | host/src/auth.rs:183-188 | a nonce accepted twice was accepted more than 60 seconds apart, so the request was stamped ahead of the clock |
| Authentication.AcceptedAgainIff | host/src/auth.rs:163-188 | an accepted request can be accepted again by the same process if and only if its timestamp was ahead of the clock |
| Authentication.FailuresAreSpread | host/src/auth.rs:191-204 | in every run, any 21 failures reported with their own error span more than 60 seconds, and the queue is sorted with at most 20 entries |
| Authentication.RateLimitedExactly | host/src/auth.rs:191-204 | a failure is rate limited exactly when the twentieth-last reported failure is within 60 seconds |
| Authentication.Authenticator.Verify | host/src/auth.rs:157-189 | answers and updates its memory as `VerifyRequest` specifies |
| Authentication.Authenticator.Failed | host/src/auth.rs:191-204 | drops expired failures from the front and records this one unless 20 remain |
| StoreRuns.RunsAreExplained | decky/py_modules/decky_my_rig/store.py:120-266 | every run of any reads, upserts, deletions and pairings, with any failures and crashes, has states that explain it: each is the one before, the one the operation aims at, or their mixture after a torn commit; sane while no operation breaks the store; and good, with every credential owned, if all operations are proper and no commit is torn |
| StoreSafety.AtomicIff | decky/py_modules/decky_my_rig/store.py:194-231 | an operation on a good state happens entirely or not at all if and only if its commit is not torn, or the tear cannot show: nothing was paired, or credential or metadata do not change |
| StoreRuns.TearHappens | decky/py_modules/decky_my_rig/store.py:206-231 | a torn deletion from an empty store: it reports an error, and the next read shows the device without its credential |
| StoreRuns.OrphanHappens | decky/py_modules/decky_my_rig/store.py:206-231 | another leaves a credential without a device |
| StoreRuns.NextReadSees | decky/py_modules/decky_my_rig/store.py:194-255 | after an operation interrupted anywhere and any number of interrupted reads, the next successful read sees exactly what the faults of the operation decide |
| StoreRuns.NextReadSeesOldOrNew | decky/py_modules/decky_my_rig/store.py:194-255 | from a good state that is exactly the old or exactly the new state, if and only if the commit is not torn or the tear cannot show |
| StoreSafety.StepMeans | decky/py_modules/decky_my_rig/store.py:120-255 | what the files mean after one operation under any faults, and that it reports success exactly if recovery completes, it is not refused and its file operations work |
| StoreSafety.RepliesTell | decky/py_modules/decky_my_rig/store.py:120-255 | a process dies only in a crash, and an operation that is not refused fails only if a file operation reports an error |
| StoreSafety.CommitLeaves | decky/py_modules/decky_my_rig/store.py:194-231 | a commit leaves the new pair of documents exactly when its transaction was written and not rolled back, and otherwise the old pair, or a mixture if a document was replaced but reported as failed; and no transaction if it completes |
| StoreSafety.RecoverKeeps | decky/py_modules/decky_my_rig/store.py:233-255 | recovery cut short anywhere does not change what the files mean, and completes only by removing the transaction |
| StoreRuns.StuckExactly | decky/py_modules/decky_my_rig/store.py:37-110 | whatever is in the files, the store answers only errors and changes nothing exactly if they are corrupt; so a corrupt file is never taken for an empty one |
| StoreRuns.ReadsExactly | decky/py_modules/decky_my_rig/store.py:44-77 | a read of any files without a transaction returns exactly the credentials and the devices in normal form with the right flags, or fails |
| StoreRuns.StuckIff | decky/py_modules/decky_my_rig/store.py:120-192 | under every fault pattern, an operation on a working store leaves it stuck if and only if it is improper, not refused, recovery completes and its writes take effect |
| StoreRuns.BlankIdSticks | decky/py_modules/decky_my_rig/store.py:120-144 | such an operation: on an empty store, an undisturbed upsert under a single space |
| StoreRuns.FirstUpsert | decky/py_modules/decky_my_rig/store.py:120-144 | on an empty store, an accepted form under any identifier returns and leaves that one device: a good state if the identifier is not blank, a stuck store if it is |
| StoreRuns.FirstPairing | decky/py_modules/decky_my_rig/store.py:168-192 | pairing that device returns, and leaves a good state with its credential if that has 32 bytes, a stuck store otherwise |
| StoreRuns.UpsertIsRead | decky/py_modules/decky_my_rig/store.py:120-144 | after an upsert that succeeded, the next successful read shows the form, as its validators return it, in the one device with the identifier |
| StoreRuns.PairingIsRead | decky/py_modules/decky_my_rig/store.py:168-192 | after a pairing that succeeded, the next successful read shows its credential and host metadata, and nothing else changed |
| StoreStates.UpsertWrites | decky/py_modules/decky_my_rig/store.py:120-144 | an upsert writes the validated form to the one device with the identifier, keeping its place, pairing and host metadata, or adds it at the end unpaired; nothing else changes |
| StoreStates.UpsertAcceptedIff | decky/py_modules/decky_my_rig/store.py:123-133 | a form is accepted exactly if it has a name and every validator accepts its field |
| StoreStates.MarkPairedWrites | decky/py_modules/decky_my_rig/store.py:184-191 | a pairing is refused exactly if no device has the identifier, and otherwise writes credential and host metadata and nothing else |
| StoreStates.DeleteRemovesOne | decky/py_modules/decky_my_rig/store.py:146-159 | deleting removes exactly the device with the identifier and its credential, leaving the others in order |
| StoreStates.DeleteUndoesUpsert | decky/py_modules/decky_my_rig/store.py:120-159 | deleting a device that was just added restores the state |
| StoreStates.EffectIsGood | decky/py_modules/decky_my_rig/store.py:120-192 | an effect keeps identifiers unique, credentials owned, flags right and fields in normal form if and only if an upsert's identifier is not blank and a pairing's credential has 32 bytes |
| StoreStates.EffectIsSane | decky/py_modules/decky_my_rig/store.py:120-192 | the same without ownership of credentials, as after a torn commit |
| StoreStates.DecodesExactly | decky/py_modules/decky_my_rig/store.py:58-77 | any settings document loads exactly if its schema version is 2 and each device loads, to those devices |
| StoreStates.LoadedIsSettled | decky/py_modules/decky_my_rig/store.py:276-290 | a loaded device is in normal form |
| StoreStates.SaneReloads | decky/py_modules/decky_my_rig/store.py:58-77 | documents of a sane state load to that state, whatever flags they hold |
| StoreStates.BuiltIsValid | decky/py_modules/decky_my_rig/store.py:276-290 | a device built from any accepted form with a non-blank identifier revalidates to itself |
| DeckStore.Store.CommitTransaction | decky/py_modules/decky_my_rig/store.py:194-231 | writes, rolls back and removes the transaction as `Commit` specifies for each fault |
| DeckStore.Store.RecoverTransaction | decky/py_modules/decky_my_rig/store.py:233-255 | rolls a decodable transaction forward as `Recover` specifies, and refuses any other |
| DeckStore.Store.SnapshotStore | decky/py_modules/decky_my_rig/store.py:44-49 | recovers and then returns devices and credentials together |
| DeckStore.Store.UpsertDevice | decky/py_modules/decky_my_rig/store.py:120-144 | recovers, validates, and replaces or appends the device, keeping host metadata |
| DeckStore.Store.DeleteDevice | decky/py_modules/decky_my_rig/store.py:146-159 | removes the device and its credential in one transaction |
| DeckStore.Store.MarkPairedDevice | decky/py_modules/decky_my_rig/store.py:168-192 | records host metadata and credential in one transaction, or fails for an unknown device |
| DeckStore.Find | decky/py_modules/decky_my_rig/store.py:134 | the first device with the id, or none |
| Validation.NormalizeMacIdempotent | decky/py_modules/decky_my_rig/validation.py:14-18 | a normalized MAC address normalizes to itself |
| Validation.MacNormalForm | decky/py_modules/decky_my_rig/validation.py:14-18 | a normalized MAC address is the twelve digits of the input, in order and upper case, in six colon-separated pairs |
| Validation.CompactDrops | decky/py_modules/decky_my_rig/validation.py:15 | exactly hyphens, colons, dots and spaces are dropped |
| Validation.HexExactly | decky/py_modules/decky_my_rig/validation.py:7 | exactly the 22 hexadecimal digits are accepted |
| Validation.ValidateAddressIdempotent | decky/py_modules/decky_my_rig/validation.py:35-54 | an accepted hostname or IPv4 address validates to itself |
| Validation.AddressNormalForm | decky/py_modules/decky_my_rig/validation.py:35-54 | exactly which texts are accepted as addresses, and that the result is the stripped text less at most one final dot |
| Validation.ValidateBroadcastIdempotent | decky/py_modules/decky_my_rig/validation.py:57-64 | an accepted broadcast address validates to itself |
| Validation.PortText | decky/py_modules/decky_my_rig/validation.py:21-32 | a port is read from text exactly when the stripped text prints a number from 1 to 65535 and none of U+001C to U+001F was stripped |
| Validation.PortExactly | decky/py_modules/decky_my_rig/validation.py:21-32 | numbers are accepted exactly in range, flags never, and a missing or empty value is 47991 where a default is allowed |
| Validation.IPv4IsCanonical | decky/py_modules/decky_my_rig/validation.py:39-54 | an accepted IPv4 address is already in printed form |
| Validation.IPv4Exactly | decky/py_modules/decky_my_rig/validation.py:39-54 | exactly the printed forms of four octets are accepted, each as those octets |
| Validation.LabelExactly | decky/py_modules/decky_my_rig/validation.py:42-49 | a label is 1 to 63 ASCII letters, digits and hyphens, without a hyphen at either end |
| Wire.ParsingMerges | decky/py_modules/decky_my_rig/protobuf.py:49-66 | after data that parses, more data parses as it would alone, with its error, and its fields win |
| Wire.VarintExactly | decky/py_modules/decky_my_rig/protobuf.py:40-46 | reading accepts exactly the varints within ten bytes, as the sum of their seven-bit groups (Protocol Buffers Encoding, "Base 128 Varints") |
| Wire.VarintRoundTrip | decky/py_modules/decky_my_rig/protobuf.py:20-46 | an encoded number is read back, whatever follows, if and only if it fits the byte budget |
| Wire.VarintIsShortest | decky/py_modules/decky_my_rig/protobuf.py:20-25 | an encoded number is the shortest varint that carries it |
| Wire.VarintErrors | decky/py_modules/decky_my_rig/protobuf.py:40-46 | reading a varint fails exactly for lack of data or of budget |
| Wire.ContentErrors | decky/py_modules/decky_my_rig/protobuf.py:49-66 | which error the content of each wire type gives |
| Wire.FieldErrors | decky/py_modules/decky_my_rig/protobuf.py:49-66 | which error a field gives: that of its tag, that its number is zero, or that of its content |
| Wire.FieldLength | decky/py_modules/decky_my_rig/protobuf.py:51-65 | every field takes at least one byte and never reads past the end |
| Wire.EncodeVarint | decky/py_modules/decky_my_rig/protobuf.py:20-25 | the loop emits the base-128 form |
| Wire.ReadVarint | decky/py_modules/decky_my_rig/protobuf.py:40-46 | the loop reads as `VarintIn` specifies and advances within the data |
| Wire.ParseFields | decky/py_modules/decky_my_rig/protobuf.py:49-66 | the loop computes the last-one-wins map or the first error |
| Messages.MessageRoundTrip | decky/py_modules/decky_my_rig/protobuf.py:75-109 | for every schema and well-typed message, decoding the encoding gives the dictionary back if all numbers and lengths are below 2^70, and an oversized-varint error otherwise |
| Messages.UnknownFieldsAreIgnored | decky/py_modules/decky_my_rig/protobuf.py:75-96 | unknown fields inserted between fields change neither result nor error |
| Messages.FixedFieldsAreSkipped | decky/py_modules/decky_my_rig/protobuf.py:59-63 | fixed-width fields are skipped by exactly eight or four bytes |
| Messages.MessageExactly | decky/py_modules/decky_my_rig/protobuf.py:75-96 | exactly which bytes decode and to what: fields that parse, of which those of the schema have the right wire type and strict text |
| Messages.DecodeValueErrors | decky/py_modules/decky_my_rig/protobuf.py:69-95 | a value fails exactly for a wrong wire type or text that is not strictly encoded |
| Messages.FirstErrorWins | decky/py_modules/decky_my_rig/protobuf.py:78-95 | the first field of the schema that does not read decides the error |
| Messages.EntriesAreCanonical | decky/py_modules/decky_my_rig/protobuf.py:99-109 | values are encoded with the wire type of their kind, flags as one or zero |
| Messages.DecodeMessage | decky/py_modules/decky_my_rig/protobuf.py:75-96 | the loop decodes the schema's fields in order, stopping at the first error |
| Messages.EncodeMessage | decky/py_modules/decky_my_rig/protobuf.py:99-109 | the loop joins the encoded fields of values of any type, or fails, as `Assembled` specifies |
| Messages.EncodesExactly | decky/py_modules/decky_my_rig/protobuf.py:99-109 | encoding fails exactly when a name is not in the schema or a value does not convert, and yields the encoding of every well-typed message |
| Messages.RequestsAreWellFormed | decky/py_modules/decky_my_rig/generated_schema.py:4-38 | the request schemas have distinct names and distinct positive numbers |
| Messages.ResponsesAreWellFormed | decky/py_modules/decky_my_rig/generated_schema.py:9-43 | so do the response schemas |
| Utf8.DecodesExactly | decky/py_modules/decky_my_rig/protobuf.py:69-72 | decoding accepts exactly the strict encodings, each as the text it encodes |
| Canonical.RequestMessageInjective | host/src/auth.rs:46-65 | request messages are equal exactly when timestamp, nonce, upper-cased method, path and body digest are |
| Canonical.ResponseMessageInjective | host/src/auth.rs:101-117 | response messages are equal exactly when nonce, path, status and body digest are |
| Canonical.CredentialAadInjective | host/src/pairing.rs:84-103 | associated data are equal exactly when all six pieces of metadata are |
| Canonical.RequestNeverResponse | host/src/auth.rs:12-13 | a request message never equals a response message |
| Canonical.RequestSidesAgree | decky/py_modules/decky_my_rig/auth.py:13-16 | Deck and host build the same request bytes whenever the host accepts, and refuse the same inputs unless a method that is not ASCII becomes encodable in upper case |
| Canonical.LongSDisagrees | decky/py_modules/decky_my_rig/auth.py:15 | such a method exists: the Deck signs one with a long s, the host refuses it |
| Canonical.ResponseSidesAgree | decky/py_modules/decky_my_rig/auth.py:36-41 | Deck and host build the same response bytes, and the Deck refuses exactly the statuses outside 100 to 999 besides what the host refuses |
| Canonical.AadSidesAgree | decky/py_modules/decky_my_rig/protobuf.py:140-153 | host and Deck bind a credential to the same bytes |
| Canonical.DeckRequestErrors | decky/py_modules/decky_my_rig/auth.py:13-16 | which exception the Deck raises for a request: encoding, or a length or timestamp out of range |
| Strings.UpperExactly | host/src/auth.rs:46-65 | exactly the 26 small letters of a method change, each to its capital |
| Canonical.FieldsSplit | host/src/auth.rs:67-72 | a known number of length-prefixed fields is uniquely readable, whatever follows |
| Canonical.CanonicalMessage | host/src/auth.rs:46-65 | succeeds exactly on encodable inputs, with the request message |
| Canonical.HostResponseMessage | host/src/auth.rs:101-117 | succeeds exactly on encodable inputs, with the response message |
| Canonical.AppendField | host/src/auth.rs:67-72 | appends the prefixed field, or refuses one over 65535 bytes |
| Canonical.HostCredentialAad | host/src/pairing.rs:84-103 | succeeds exactly when every field fits its prefix, with the associated data |
| Canonical.DeckCredentialAad | decky/py_modules/decky_my_rig/protobuf.py:140-153 | the same, if also the protocol version fits 32 bits |
| Versions.HostParsesExactly | host/src/versioning.rs:10-21 | the host accepts exactly the printed triples of 64-bit numbers |
| Versions.DeckMatchesExactly | decky/py_modules/decky_my_rig/versioning.py:7-19 | the Deck's expression matches exactly three dotted numerals, each zero or a non-zero ASCII digit followed by decimal digits of any script |
| Versions.ComparatorsAgreeIff | decky/py_modules/decky_my_rig/versioning.py:18-31 | host and Deck agree on two versions if and only if the expression fails on one, or both are in ASCII digits with every component below 2^64 |
| Versions.UnicodeDigitDisagrees | decky/py_modules/decky_my_rig/versioning.py:7 | a version with an Arabic-Indic digit is compatible with itself on the Deck and unknown to the host |
| Versions.HostVerdict | host/src/versioning.rs:23-36 | for two printed versions: incompatible iff the major numbers differ, and otherwise the side with the smaller minor number must update, or neither |
| Versions.HostUnknownIff | host/src/versioning.rs:23-26 | unknown iff one text is not a printed version of 64-bit numbers |
| Versions.DeckVerdict | decky/py_modules/decky_my_rig/versioning.py:23-31 | the same four cases for the numbers the Deck reads |
| Versions.DeckUnknownOrRaises | decky/py_modules/decky_my_rig/versioning.py:18-24 | the Deck calls a pair unknown iff its expression fails on one, and raises iff both match and a numeral is too long to convert |
| Versions.CompareIsSymmetric | host/src/versioning.rs:23-36 | swapping the versions swaps who must update |
| Versions.SilentExactly | host/src/versioning.rs:23-36 | versions are compatible exactly when both are well formed and differ at most in the patch number |
| Versions.Parse | host/src/versioning.rs:10-21 | the splitting iterator parses as `HostParse` specifies |
| Versions.NextPart | host/src/versioning.rs:11 | one step of the iterator yields the text before the first dot and the rest |

## Left out

- Cryptographic internals and random generation: library calls, taken as arbitrary functions or values.
- HTTP routing, header parsing, hex, content types, logging and response building: no state. Whether a
  request's content type, body and protocol version are in order is one field of the request.
- The second lifetime test inside `finish` (host/src/pairing.rs:227-229): with one clock reading per call it
  never fires after pruning.
- JSON and hex in the Deck's files: a file is missing, unparseable, or a document.
- Durability below an atomic write, several processes on one directory, and clocks that run backwards.
- `find` and `credentials` on their own: each is a reading of the modelled state.
- What Python's `str`, `bytes` and `int` make of a field value of another type: an arbitrary function in `Messages`.
- Validation.PortText: covers numbers, flags, text and missing values, not other Python objects.
- The client, controller, discovery, Wake-on-LAN, the Windows service shell, the control application, the user interface and the release scripts: network, operating system or user interface.
