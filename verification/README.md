# Barista, modelled and proved

Barista runs named sessions on a fleet of nodes that share nothing but a bucket. Its
correctness rests on a compare-and-swap lease protocol, a crash-safe operation journal, an
event journal with an ordered bus, and a few exact encodings. This project models those parts
in Dafny and proves what they promise, over every input, every run and every interleaving.

`dafny verify dfyconfig.toml` checks everything.

| file | what it models |
|---|---|
| `Leases.dfy` | the lease verbs on a bucket, and any number of nodes using them with arbitrary clocks and stale evidence |
| `LeaseWrites.dfy` | the two kinds of task inside one node that write leases, step by step |
| `Outages.dfy` | the renewal pass and the past-TTL unreachability report |
| `States.dfy` | the two transition tables and the operation kinds |
| `Journal.dfy` | the instance and operation tables, one method per transaction, crashes included |
| `Sessions.dfy` | which instance realises a session, over runs of passes |
| `Capsules.dfy`, `ObjectGc.dfy` | reference counts, and the collection of bytes against them |
| `EventLog.dfy`, `Watch.dfy` | the event journal; emitters, retention and a subscriber interleaved |
| `Manifest.dfy` | the canonical stream of a capsule manifest |
| `Civil.dfy`, `Wake.dfy` | civil dates, and reading a timestamp |
| `Base64.dfy` | the bucket's base64 |
| `Tail.dfy` | the bounded output ring |

Code that updates state is a class or a method with loops, proved against a function of the
old state; the properties are lemmas about those functions and about the runs they make. A
table is a map, a transaction one atomic step, a crash a reopening between two of them.
Where tasks are interrupted, each step between two points of interruption is its own event.

Assumptions that are part of the statements:

- Version tags: equal tags name equal records. They may be content hashes and may return.
- Clocks are arbitrary in the lease protocol, on the bus and in the watch. The outage report
  takes this node's own clock as non-decreasing. Insertion times are taken as non-decreasing
  only in `EventLog.FloorIsHonest`, `EventLog.PruneTakesAPrefix`, `Watch.OnlyAPruneCuts`,
  `Watch.RefusedExactlyWhenOvertaken`, `Watch.RefusalIsWarrantedExactlyWhen` and the lemmas
  they rest on.
- A store error is a write that was not applied; a write applied with its reply lost is its
  own case (`unheard` in `LeaseWrites`).
- Crash recovery runs before the server listens
  (crates/barista-node-agent/src/ops.rs:2353-2355), so what it fails is still unsettled:
  `finish_op_failed` itself has no guard, and `Journal.SettledIsFinal` rests on this.
- Clocks, minted identifiers, version tags and the answers of the network are parameters.

## Where the code and its promises part

Each of these is a lemma with a concrete run, next to a lemma that says exactly when the
promise does hold.

- An epoch change does not mean an owner change: an owner that re-takes its own lapsed lease
  advances the epoch (`Leases.EpochTracksOwnerExactlyWhen`, `Leases.OneOwnerTwoEpochs`).
- Recording an instance, and releasing, use a version read before the write lock, so this
  node's own stamp can fence them (`LeaseWrites.EarlyReadIsRefusedExactlyWhen`,
  `LeaseWrites.OwnStampFencesEarlyRead`).
- A settled operation's report is not final: the freeze and the fork mode are written without
  a guard by an executor that outlives its cancellation (`Journal.NotesAreExactlyWhatWasNoted`,
  `Journal.FreezeAfterCancel`).
- A cancelled wait gives its claim up while its executor can still report, so it can move an
  instance under another operation (`Journal.FinishedUnderAnotherExactlyWhen`,
  `Journal.CanceledLosesItsClaimExactlyWhen`, `Journal.CanceledWaitMovesUnderAnother`). This
  is a run of the journal's interface: `await_input`
  (crates/barista-node-agent/src/ops.rs:1753) is called only by the repository's tests.
- A returning owner does not resume its own snapshot: a paused instance counts as realised
  and never gets to the arm that would (`Sessions.ResumeArmIsNeverReached`). The one thing
  that can be resumed there is an instance that pauses between the pass's two reads
  (`Sessions.ResumesExactlyWhenPausedInBetween`).
- FAILED counts as terminal but may be destroyed, so one instance can be substituted for
  twice (`Sessions.TwiceExactlyAfterAWriteBack`, `Sessions.DestroyingTheFailedSubstitutesTwice`).
- The guard on dropping an object's row comes after its bytes are gone
  (`ObjectGc.StepLosesBytesExactlyWhen`, `ObjectGc.ReimportDuringCollection`).
- Pruning selects by time and the floor by cursor, so a clock that steps back hides a loss
  (`EventLog.PruneKeepsTheFloorHonestExactlyWhen`, `EventLog.SteppedBackClockHidesALoss`).
- The floor is checked once per replay and the pages are separate reads, so a prune between
  them makes a silent hole (`Watch.PageIsExactExactlyWhen`,
  `Watch.DrainedStreamIsCompleteExactlyWhen`, `Watch.CutReplayLosesSilently`).
- A lagging stream is refused by its cursor alone, so one the journal could still repair can
  be refused (`Watch.RefusalIsWarrantedExactlyWhen`, `Watch.AWholeStreamIsRefused`).
- Hours, minutes and seconds may be negative (`Wake.AcceptedIsRealExactlyWhen`,
  `Wake.MinusOneHourIsAccepted`), and an offset can split a character
  (`Wake.PanicsExactlyWhen`, `Wake.AnAccentedOffsetPanics`).

## Model

| member | source | states |
|---|---|---|
| `Leases.Bucket.Put` | crates/barista-fleet/src/lease.rs:423-439 | the one conditional write: admitted exactly on an absent record (create) or the named version (update); a refusal changes nothing, and no other name is touched |
| `Leases.Bucket.Acquire` | crates/barista-fleet/src/lease.rs:220-283 | one attempt, a rival's write in between included: refused for bad timing; refused as held exactly while another's lease has not expired on this clock; won exactly if it had the right and no rival moved the version, and then the record is the next lease, field by field |
| `Leases.Bucket.AcquireWithRetry` | crates/barista-fleet/src/lease.rs:295-317 | the retry loop computes `Attempts`: only contention is retried |
| `Leases.ContendedExactlyWhenAlwaysBeaten` | crates/barista-fleet/src/lease.rs:295-317 | the retry reports contention if and only if every turn was beaten by a rival that moved the version |
| `Leases.Bucket.Write` | crates/barista-fleet/src/lease.rs:329-416 | renew, stamp, set-instance and release: accepted exactly when the held version is still the record's, and then exactly the fields the verb names have changed |
| `Leases.AttemptIsSteps` | crates/barista-fleet/src/lease.rs:220-283 | an acquisition on the bucket is a look and a claim of the fleet below, with any steps of others in between, and a win is what the node then holds |
| `Leases.WriteIsAStep` | crates/barista-fleet/src/lease.rs:329-416 | each fenced write on the bucket is one step of the fleet, accepted or refused alike |
| `Leases.AdmittedSawCurrent` | crates/barista-fleet/src/lease.rs:423-439 | an admitted update found exactly the record its evidence names, although tags may be content hashes and come back |
| `Leases.StepKeepsInv` | crates/barista-fleet/src/lease.rs:220-439 | every verb of every node, with any clock and any stale evidence, keeps the fleet-wide invariant |
| `Leases.BehaviourKeepsInv` | crates/barista-fleet/src/lease.rs:10-15 | so it holds in every interleaving of any number of nodes |
| `Leases.EachEpochHasOneOwner` | crates/barista-fleet/src/lease.rs:220-416 | in every interleaving the epoch never decreases, an epoch keeps its owner for all time, and the owner changes only with an epoch advance |
| `Leases.NoEpochWasEverShared` | crates/barista-fleet/src/lease.rs:220-416 | of all records ever accepted, two with one epoch have one owner |
| `Leases.OnlyClaimsAndRenewalsExtend` | crates/barista-fleet/src/lease.rs:329-416 | in every interleaving an expiry moves later only by a claim or a renewal, to that node's clock plus the TTL, and the recorded instance survives it |
| `Leases.OwnerChangesOnlyAfterExpiry` | crates/barista-fleet/src/lease.rs:245-283 | in every interleaving a name changes hands only by a claim of its new owner, on whose clock the old lease has expired, at the next epoch and with the recorded instance kept |
| `Leases.AcceptedWriteChanges` | crates/barista-fleet/src/lease.rs:329-416 | in every interleaving an accepted write changes of the record it found exactly what its verb says |
| `Leases.ReleasedIsFree` | crates/barista-fleet/src/lease.rs:408-416 | after a release the next to try, with any clock that is not negative, wins at the next epoch and finds the instance |
| `Leases.EpochTracksOwnerExactlyWhen` | crates/barista-fleet/src/lease.rs:255-270 | a step changes epoch and owner together if and only if it does not re-take the owner's own lapsed lease; no step skips an epoch |
| `Leases.OneOwnerTwoEpochs` | crates/barista-fleet/src/lease.rs:262-266 | a run of the exception |
| `Leases.FencingIsPermanent` | crates/barista-fleet/src/lease.rs:329-439 | once a higher epoch is stored, evidence of a lower one is refused at every later moment, for every verb |
| `LeaseWrites.NextKeepsInv` | crates/barista-node-agent/src/fleet_phase.rs:127-152 | under the write lock, a name nobody else wrote is in the bucket at exactly the version the held map (or the write being recorded) carries |
| `LeaseWrites.BehaviourKeepsInv` | crates/barista-node-agent/src/fleet.rs:49-77 | so it is in every interleaving of passes, stamps and foreign writes |
| `LeaseWrites.VerbsKnowTheirLock` | crates/barista-node-agent/src/fleet_phase.rs:199-256 | renewals and stamps read their version inside the lock, the other two verbs before it |
| `LeaseWrites.NoFalseFence` | crates/barista-node-agent/src/fleet_phase.rs:199-256 | a renewal or stamp is refused only if another node wrote after this node's last accepted write, or an accepted write's reply was lost |
| `LeaseWrites.AnswerIsRecorded` | crates/barista-node-agent/src/fleet_phase.rs:199-256 | over every run what the held map says of a name after each answer: refused renewals drop it, refused stamps leave it, acceptances put the version written, silence changes nothing |
| `LeaseWrites.EarlyReadIsRefusedExactlyWhen` | crates/barista-node-agent/src/fleet_phase.rs:545-603 | recording an instance, or releasing, on an undisturbed record is refused if and only if this node's own map has moved past the version read before the lock |
| `LeaseWrites.OwnStampFencesEarlyRead` | crates/barista-node-agent/src/fleet_phase.rs:349-603 | a run with no foreign write and no lost reply in which recording (or releasing) is refused: the node drops a name it still owns |
| `Outages.Fleet.RenewHeld` | crates/barista-node-agent/src/fleet_phase.rs:183-256 | the renewal loop computes the held map after its answers, and whether any renewal was answered or missed |
| `Outages.Fleet.Pass` | crates/barista-node-agent/src/fleet_phase.rs:172-318 | one pass: renewals, the episode's advance, and the rest only if no renewal went unanswered |
| `Outages.VisitChanges` | crates/barista-node-agent/src/fleet_phase.rs:199-256 | one visit, name by name: renewed for a TTL from its moment, lost if and only if the renewal is refused, untouched by silence, a stamp changes the run state alone |
| `Outages.FencedNameIsGone` | crates/barista-node-agent/src/fleet_phase.rs:199-256 | a name whose renewal is refused is not held when the phase ends |
| `Outages.ChangeMakes` | crates/barista-node-agent/src/fleet_phase.rs:258-318 | what an acquisition, a recording, a late stamp and a release each make of the held map |
| `Outages.SilenceKeepsExpiry` | crates/barista-node-agent/src/fleet.rs:242-268 | without contact a renewal phase moves no expiry and drops nothing |
| `Outages.SilenceIsMissed` | crates/barista-node-agent/src/fleet_phase.rs:258-318 | a silent pass over a non-empty map is cut short, so it acquires nothing |
| `Outages.StepKeepsInv` | crates/barista-node-agent/src/fleet.rs:242-268 | while an episode is open nothing held outlives its first failure by more than the TTL |
| `Outages.ReportIsNeverPremature` | crates/barista-node-agent/src/fleet.rs:242-268 | whenever the report fires, every lease the node holds has expired on its own clock |
| `Outages.ReportFiresExactlyOncePerStretch` | crates/barista-node-agent/src/fleet.rs:242-268 | in a stretch without contact it fires at exactly the first round a full TTL after the first failure: not twice, and not never |
| `Outages.ContactNeverReports` | crates/barista-node-agent/src/fleet.rs:242-268 | a report always lies in such a stretch |
| `States.PlansAreLegal` | crates/barista-node-agent/src/ops.rs:113-127 | a planned move is an edge of the transition table or no move |
| `States.TableByState` | crates/barista-node-agent/src/state_machine.rs:12-92 | the table, state by state |
| `States.TableKeepsItsPromises` | crates/barista-node-agent/src/state_machine.rs:27-92 | nothing leaves DESTROYED, everything else can be destroyed, exactly the transitional can fail, only DESTROYING may repeat, and terminal is what leads nowhere but to destruction |
| `States.OpTableKeepsItsPromises` | crates/barista-node-agent/src/state_machine.rs:114-166 | the operation edges, state by state: settling is final, and only in-flight operations move |
| `States.PlansByKind` | crates/barista-node-agent/src/ops.rs:113-127 | the state recorded for each verb and where it is legal |
| `Journal.Db.TakeDeadline` | crates/barista-node-agent/src/db.rs:451-489 | a deadline is taken exactly if the row still carries the one observed and it is due |
| `Journal.Db.SubmitAtomically` | crates/barista-node-agent/src/db.rs:2581-2800 | one submission computes `Verdict` and `Submit`: replay, conflict, rejection, superseded claim, error, or everything written at once |
| `Journal.VerdictFromTheTables` | crates/barista-node-agent/src/db.rs:2581-2800 | each verdict if and only if, from the tables alone: the first of five checks that fails decides, and journaled exactly if none does |
| `Journal.SubmissionWritesTheRequest` | crates/barista-node-agent/src/db.rs:2648-2800 | in every reachable journal what a journaled submission writes, field by field: the operation as requested, a new instance as CREATING and bare, an old one moved to the recorded state |
| `Journal.MovesOfAnOperation` | crates/barista-node-agent/src/db.rs:1382-1584 | narrating, parking, resuming and cancelling, field by field, and nothing where the state does not allow it |
| `Journal.Db.SetOpStep` | crates/barista-node-agent/src/db.rs:1382-1394 | narration touches only unsettled operations |
| `Journal.Db.AwaitOpInput` | crates/barista-node-agent/src/db.rs:1470-1494 | parks exactly a running operation |
| `Journal.Db.ResumeOpFromInput` | crates/barista-node-agent/src/db.rs:1496-1518 | picks up exactly a parked one |
| `Journal.Db.FinishOpCanceled` | crates/barista-node-agent/src/db.rs:1520-1584 | cancels exactly an unsettled one; the claim stays with its executor unless it was parked |
| `Journal.Db.FinishOperation` | crates/barista-node-agent/src/db.rs:1643-1814 | the finalize computes `FinishVerdict` and `Finish`, rollbacks included |
| `Journal.Db.ResetClaims` | crates/barista-node-agent/src/db.rs:937-946 | reopening leaves a claim on exactly the unsettled operations |
| `Journal.Db.FailInflightOps` | crates/barista-node-agent/src/db.rs:1592-1612 | the recovery loop fails exactly the unsettled operations |
| `Journal.ApplyKeepsInv` | crates/barista-node-agent/src/db.rs:1382-1814 | every transaction, and a crash between any two, keeps the claim invariant |
| `Journal.RunKeepsInv` | crates/barista-node-agent/src/db.rs:1382-1814 | so it holds in every reachable journal |
| `Journal.ClaimsAreExclusive` | crates/barista-node-agent/src/db.rs:2638-2647 | at most one active operation per instance, every unsettled one active, an active settled one cancelled, keys unique |
| `Journal.RecoveryFreesEveryClaim` | crates/barista-node-agent/src/db.rs:937-946 | whatever the journal held, reopening and failing the unsettled leaves no claim, fails exactly those with the recovery's message, and keeps every reported outcome |
| `Journal.StepKeepsOutcomes` | crates/barista-node-agent/src/db.rs:1382-1814 | no transaction loses an operation's identity, re-claims it, or touches a settled outcome |
| `Journal.SettledIsFinal` | crates/barista-node-agent/src/db.rs:1470-1584 | no later sequence of any transactions changes a settled operation's state, step, error, degradation or times, or gives it back a claim |
| `Journal.Db.SetOpFrozeWorkload` | crates/barista-node-agent/src/db.rs:1402-1410 | the freeze is noted whatever the operation's state |
| `Journal.Db.SetOpForkMode` | crates/barista-node-agent/src/db.rs:1418-1426 | so is the fork mode |
| `Journal.NotesAreExactlyWhatWasNoted` | crates/barista-node-agent/src/db.rs:1396-1426 | exactly when the other two reported columns move, settled or not: the freeze if and only if it is noted, the fork mode to the last one noted |
| `Journal.ReleasedIsFinalExactlyWhen` | crates/barista-node-agent/src/db.rs:1396-1426 | once a settled operation has lost its claim, its whole row stays as it is if and only if what is noted after that says nothing new |
| `Journal.FreezeAfterCancel` | crates/barista-node-agent/src/ops.rs:1253-1265 | a run in which the report of a cancelled snapshot changes: submit, step, cancel, and then the freeze is noted |
| `Journal.FinishingCanceledIsAllOrNothing` | crates/barista-node-agent/src/db.rs:1740-1814 | finishing what no longer runs changes nothing at all, unless it is cancelled and its instance may land along an edge: then exactly that, and its claim is freed |
| `Journal.FinishingRecordsTheReport` | crates/barista-node-agent/src/db.rs:1643-1740 | in every reachable journal a finish of an unsettled operation records exactly the report, keeps its notes, frees its instance's only claim, and moves no other row |
| `Journal.SubmissionClaimsItsInstance` | crates/barista-node-agent/src/db.rs:2581-2800 | in every reachable journal a submission that journals leaves exactly its own claim on the instance and a legal move; any other verdict changes nothing |
| `Journal.FinishedUnderAnotherExactlyWhen` | crates/barista-node-agent/src/db.rs:1643-1814 | while one operation holds the claim, another's report on the instance is taken if and only if that one is cancelled and the move is an edge |
| `Journal.CanceledLosesItsClaimExactlyWhen` | crates/barista-node-agent/src/db.rs:1520-1584 | a cancelled operation comes to be without its claim exactly if it was parked, the process died, or its executor landed |
| `Journal.CanceledWaitMovesUnderAnother` | crates/barista-node-agent/src/db.rs:1520-1584 | a run of the journal's calls in which a start cancelled while parked overwrites the state of a running destroy |
| `Journal.KeyNamesOneOperationForEver` | crates/barista-node-agent/src/db.rs:2581-2637 | a key used once names that operation in every later journal, and submitting under it again is a replay that changes nothing |
| `Journal.DeadlineAndOperationAreOneWrite` | crates/barista-node-agent/src/db.rs:2648-2800 | a submission clears the deadline it claims if and only if it journals its operation |
| `Journal.DeadlinesMoveOnlyBy` | crates/barista-node-agent/src/db.rs:451-489 | over every run, re-arms and the standalone claim aside: a wake moves only by a submission that claims exactly it, a TTL by such a submission or by a finalize that puts its own in place |
| `Sessions.NeverMaterialisesTheTerminal` | crates/barista-node-agent/src/fleet_phase.rs:1048-1118 | over every run `materialise` never gets a terminal instance; when it submits nothing the instance is moving by itself |
| `Sessions.AdvanceByState` | crates/barista-node-agent/src/fleet_phase.rs:1063-1118 | what `materialise` submits, state by state |
| `Sessions.GoesFor` | crates/barista-node-agent/src/fleet_phase.rs:661-674 | over every run the instance a pass goes for: the record's while it can still run, else the lease's if that is another and can, else the one just minted |
| `Sessions.FencedIsTheLast` | crates/barista-node-agent/src/fleet_phase.rs:538-607 | once recording an instance is refused, no later pass of the run materialises, records or substitutes |
| `Sessions.ResumeArmIsNeverReached` | crates/barista-node-agent/src/fleet_phase.rs:1071-1083 | the promise that a returning owner resumes its own snapshot fails over every run of one-step decisions: a paused instance never gets to `materialise`, and the cold boot changes nothing there |
| `Sessions.ResumesExactlyWhenPausedInBetween` | crates/barista-node-agent/src/fleet_phase.rs:500-514 | with the two reads apart, a resume is submitted if and only if the owner did not change and the instance came to be paused between them |
| `Sessions.NextKeepsInv` | crates/barista-node-agent/src/fleet_phase.rs:538-607 | what each pass, appearance and move keeps about recorded substitutions |
| `Sessions.SubstitutionsAreOncePerTerminalInstance` | crates/barista-node-agent/src/fleet_phase.rs:420-457 | no instance but the record's own is ever substituted for twice, and the record's only after a write-back |
| `Sessions.TwiceExactlyAfterAWriteBack` | crates/barista-node-agent/src/fleet_phase.rs:420-457 | over whole runs some instance is substituted for twice if and only if the record's own was substituted for after a write-back |
| `Sessions.OnlyTheTerminalIsReplaced` | crates/barista-node-agent/src/fleet_phase.rs:661-674 | what is substituted for is terminal, and the substitute is not |
| `Sessions.OncePerTerminalInstanceWhen` | crates/barista-node-agent/src/fleet_phase.rs:661-674 | if the record's instance never leaves a terminal state, each terminal instance is substituted for at most once |
| `Sessions.DestroyingTheFailedSubstitutesTwice` | crates/barista-node-agent/src/state_machine.rs:84-127 | a run in which it leaves one: FAILED may be destroyed, and then the same instance is substituted for twice |
| `Capsules.Registry.RegisterCapsule` | crates/barista-node-agent/src/db.rs:1991-2057 | computes `Register`: first insertion takes one reference per listing, a repeat only raises the storage tier |
| `Capsules.Registry.DeleteCapsule` | crates/barista-node-agent/src/db.rs:2105-2161 | computes `Delete`: drops one reference per listing, and the imported snapshot row |
| `Capsules.Registry.CollectableObjects` | crates/barista-node-agent/src/db.rs:2164-2181 | exactly the digests marked and unreferenced |
| `Capsules.Registry.FinalizeObjectGc` | crates/barista-node-agent/src/db.rs:2183-2191 | drops exactly a row that is still collectable |
| `Capsules.ListedWithout` | crates/barista-node-agent/src/db.rs:2105-2161 | the number of live listings of an object, split at any one capsule, whatever the order of counting |
| `Capsules.DroppedRefs` | crates/barista-node-agent/src/db.rs:2118-2161 | dropping no more references than are held lowers the count by exactly that many and marks exactly on zero |
| `Capsules.ReferencesAreConserved` | crates/barista-node-agent/src/db.rs:1991-2191 | after any sequence each count is the number of live listings, and an object is marked exactly if that is zero |
| `Capsules.LiveObjectsAreNeverCollectable` | crates/barista-node-agent/src/db.rs:2164-2191 | an object a live capsule lists has its row, is never collectable and is never dropped |
| `Capsules.UnlistedRowsAreCollectable` | crates/barista-node-agent/src/db.rs:2164-2191 | and an object nothing lists always is: nothing leaks |
| `Capsules.ClampNeverFires` | crates/barista-node-agent/src/db.rs:2118-2161 | every decrement starts from a positive count |
| `Capsules.ReplaysTouchNoReference` | crates/barista-node-agent/src/db.rs:1971-2024 | registering again or deleting what is absent changes no reference |
| `Capsules.StorageIsTheStrongestOffered` | crates/barista-node-agent/src/db.rs:1971-2024 | a capsule is live exactly if registered since its last deletion, and its storage is the strongest of those registrations, tier by tier |
| `Capsules.CapsulesAreImmutable` | crates/barista-node-agent/src/db.rs:1991-2057 | after any sequence a live capsule is, storage aside, the row of its first registration |
| `ObjectGc.BytesOutliveTheirReferences` | crates/barista-node-agent/src/objects.rs:552-563 | unless an export commits a digest a collection pass has read and not yet removed, every live object keeps its bytes in every interleaving |
| `ObjectGc.ClashLosesBytes` | crates/barista-node-agent/src/objects.rs:552-563 | from any such clash, publishing and then removing leaves a live capsule without bytes, and the guarded row deletion keeps the row |
| `ObjectGc.StepLosesBytesExactlyWhen` | crates/barista-node-agent/src/objects.rs:552-563 | a step of any run leaves a live object without bytes if and only if it removes one referenced by now, or publishes one removed since it was committed |
| `ObjectGc.ReimportDuringCollection` | crates/barista-node-agent/src/objects.rs:217-250 | a run that gets there |
| `ObjectGc.PassReclaims` | crates/barista-node-agent/src/objects.rs:552-563 | in every reachable state a pass over an object nothing lists reclaims its bytes and its row and nothing else |
| `EventLog.Events.InsertEvent` | crates/barista-node-agent/src/db.rs:2348-2371 | appends a row with the instance, body and time given under the next cursor, and touches nothing else |
| `EventLog.Events.JournalFloor` | crates/barista-node-agent/src/db.rs:2381-2396 | one below the oldest row, or the persisted mark of an emptied journal |
| `EventLog.Events.HighestStale` | crates/barista-node-agent/src/db.rs:2408-2421 | the highest cursor among the first `chunk` old rows |
| `EventLog.Events.PruneEvents` | crates/barista-node-agent/src/db.rs:2408-2437 | computes `Prune`, and how many rows went |
| `EventLog.Events.HeadCursor` | crates/barista-node-agent/src/db.rs:2480-2488 | bounds every cursor in the table and is one of them; zero when the table is empty |
| `EventLog.Events.ReadAfter` | crates/barista-node-agent/src/db.rs:2495-2527 | exactly the rows after the cursor of the instance asked for, or of any if none is, in cursor order, cut off at the limit |
| `EventLog.ServedMembers` | crates/barista-node-agent/src/db.rs:2495-2527 | which rows a read finds, if and only if |
| `EventLog.ReadAnswers` | crates/barista-node-agent/src/db.rs:2495-2527 | and for every limit, which of them a page has |
| `EventLog.Events.ReplayJournal` | crates/barista-node-agent/src/service.rs:324-350 | paging with any positive limit concatenates to exactly the unbounded read |
| `EventLog.PageThenRest` | crates/barista-node-agent/src/db.rs:2495-2527 | reading on from the last row of a page continues exactly where it stopped |
| `EventLog.PruneTakesAPrefix` | crates/barista-node-agent/src/db.rs:2408-2437 | with a steady clock one chunk takes exactly the first old rows, up to its size, and they are a prefix |
| `EventLog.FloorIsHonest` | crates/barista-node-agent/src/db.rs:2372-2437 | after any mix of inserts and prunes, from any cursor at or above the floor the journal serves every event ever inserted after it |
| `EventLog.EveryRunIsSound` | crates/barista-node-agent/src/db.rs:2348-2437 | under any clock: rows stay in cursor order and come from the history, and what is gone lies at or below the persisted mark |
| `EventLog.FloorNeverDecreases` | crates/barista-node-agent/src/db.rs:2381-2437 | the floor never goes down, whatever the clock does, an emptied journal included |
| `EventLog.PruneKeepsTheFloorHonestExactlyWhen` | crates/barista-node-agent/src/db.rs:2408-2437 | after any run under any clock: a prune leaves an honest floor if and only if no row too young to go lies at or below the highest cursor it removes |
| `EventLog.SteppedBackClockHidesALoss` | crates/barista-node-agent/src/db.rs:2408-2437 | a run in which one step back of the clock loses an event above the floor |
| `Watch.EmitKeepsBusInv` | crates/barista-node-agent/src/events.rs:74-84 | lock, insert, send, under any clock: the broadcast stays the inserted events in cursor order, short of at most the one being sent |
| `Watch.NothingIsLostUnderTheLock` | crates/barista-node-agent/src/events.rs:51-84 | in every interleaving of emitters a subscriber dropping cursors it has seen hears every event |
| `Watch.UnlockedEmittersLoseAnEvent` | crates/barista-node-agent/src/events.rs:51-84 | without the lock an interleaving loses one |
| `Watch.NextKeepsInv` | crates/barista-node-agent/src/service.rs:1631-1745 | every step of emitters, retention and the subscriber keeps the stream's invariant |
| `Watch.StreamHasNoHoles` | crates/barista-node-agent/src/service.rs:1631-1745 | under any clock: a stream that is not cut has delivered exactly the matching events from its anchor to where it stands, each once and in order; a live one is whole if and only if it is not cut |
| `Watch.CutIsLost` | crates/barista-node-agent/src/service.rs:1631-1745 | once cut, a stream has lost an event that no later step of any run delivers |
| `Watch.OnlyAPruneCuts` | crates/barista-node-agent/src/service.rs:1655-1735 | with a steady clock a stream is cut in one way only: at a page of a replay that a prune has crossed since its floor check |
| `Watch.DrainedStreamIsCompleteExactlyWhen` | crates/barista-node-agent/src/service.rs:1631-1745 | a drained live stream has delivered every matching event after its anchor if and only if it is not cut |
| `Watch.DrainedStreamHas` | crates/barista-node-agent/src/service.rs:1631-1745 | an uncut drained stream has delivered an event if and only if it comes after the anchor and belongs to the instance asked for |
| `Watch.OnlyWhatWasAskedFor` | crates/barista-node-agent/src/service.rs:1631-1745 | in every run, cut or not and under any clock, what is delivered is in cursor order, each event once, inserted, after the anchor and of the instance asked for |
| `Watch.TailGetsOnlyNewEvents` | crates/barista-node-agent/src/service.rs:1647-1655 | a stream asked for new events only never gets one that had been broadcast when it asked |
| `Watch.RefusedExactlyWhenOvertaken` | crates/barista-node-agent/src/service.rs:1656-1735 | with a steady clock a stream is refused, on connecting or on repair, if and only if some event after its cursor is gone from the journal |
| `Watch.PageIsExactExactlyWhen` | crates/barista-node-agent/src/service.rs:324-350 | at every page of every run, empty ones included: the stream is whole after it if and only if no matching event up to its end, or up to the queue if it is short, is gone from the journal |
| `Watch.CutReplayLosesSilently` | crates/barista-node-agent/src/service.rs:1655-1700 | a run, with a steady clock, in which a prune takes everything a replay had left, the page is empty and the stream goes live |
| `Watch.RefusalIsWarrantedExactlyWhen` | crates/barista-node-agent/src/service.rs:1705-1735 | with a steady clock a lagging stream that can no longer be repaired is always refused, and it is so if and only if a matching event lies between where it stands and the lower of floor and queue |
| `Watch.AWholeStreamIsRefused` | crates/barista-node-agent/src/service.rs:1705-1735 | a run in which a stream the journal could repair is refused: a tail that began on an emptied journal and fell one event behind |
| `Manifest.Hasher.Feed` | crates/barista-node-agent/src/capsule.rs:50-53 | a part goes in behind its length |
| `Manifest.CanonicalBytes` | crates/barista-node-agent/src/capsule.rs:60-115 | the hasher is given exactly `Stream`: fixed fields, counted sorted capabilities, counted sorted objects |
| `Manifest.SortIsCanonical` | crates/barista-node-agent/src/capsule.rs:85-103 | sorting forgets exactly the order: two lists sort alike if and only if they are one multiset |
| `Manifest.TextLeIsLexicographic` | crates/barista-node-agent/src/capsule.rs:85-103 | texts go by their first difference, a prefix first |
| `Manifest.ObjectsGoBy` | crates/barista-node-agent/src/capsule.rs:90-103 | objects go by digest, then type, media type and length |
| `Manifest.FedSplits` | crates/barista-node-agent/src/capsule.rs:44-53 | whatever follows, two fed parts are told apart |
| `Manifest.StreamReadsBack` | crates/barista-node-agent/src/capsule.rs:55-115 | the stream is uniquely decodable, and none is a prefix of another capsule's |
| `Manifest.StreamReadsInOrder` | crates/barista-node-agent/src/capsule.rs:60-115 | a reader that knows only the order of the fields finds them in the stream of any capsule: nine fields, the count and sorted capabilities, the count and sorted objects, and whatever follows |
| `Manifest.StreamsAgreeExactlyWhen` | crates/barista-node-agent/src/capsule.rs:1-115 | two manifests have one stream if and only if they agree on every field, lists as multisets and an absent creation time as zero |
| `Civil.TomorrowIsOneMore` | crates/barista-cli/src/wake.rs:180-189 | consecutive dates of any year are consecutive integers |
| `Civil.ClosedFormCounts` | crates/barista-cli/src/wake.rs:175-189 | the closed form of the n-th day from 1970-01-01, forwards or backwards, is n |
| `Civil.EveryDateIsCounted` | crates/barista-cli/src/wake.rs:175-189 | every valid date of every year is the date its number walks to |
| `Civil.OrderIsKept` | crates/barista-cli/src/wake.rs:180-189 | calendar order is integer order, and different dates are different numbers |
| `Civil.MarchToMarch` | crates/barista-cli/src/wake.rs:120-131 | a year from March has the leap day exactly if the later year is leap, below zero too |
| `Civil.InstantsKeepOrder` | crates/barista-cli/src/wake.rs:169-172 | real UTC times keep their order as instants |
| `Wake.UtcRoundTrip` | crates/barista-cli/src/wake.rs:79-173 | every real time written in UTC is read as the seconds since 1970: days by the calendar, then the time of day |
| `Wake.OffsetRoundTrip` | crates/barista-cli/src/wake.rs:150-172 | at every numeric offset the moment is that much before the wall clock east of Greenwich and after it west |
| `Wake.LowerCaseReadsTheSame` | crates/barista-cli/src/wake.rs:91-146 | a small t and z read the same |
| `Wake.OtherZonesAreRefused` | crates/barista-cli/src/wake.rs:144-173 | a real time without a zone, or with another, is refused |
| `Wake.DurationsAreNotTimestamps` | crates/barista-cli/src/wake.rs:79-84 | text without a dash is left to the other spelling |
| `Wake.SignsAreRead` | crates/barista-cli/src/wake.rs:86-91 | a number may have a sign, and a plus changes nothing |
| `Wake.ParsedInstantsKeepOrder` | crates/barista-cli/src/wake.rs:79-173 | written times are read in calendar order |
| `Wake.FractionsAreDiscarded` | crates/barista-cli/src/wake.rs:137-143 | a fraction of any length changes nothing |
| `Wake.AcceptedIsRealExactlyWhen` | crates/barista-cli/src/wake.rs:99-135 | an accepted timestamp has a real date, and a real time of day if and only if no hour, minute or second is negative |
| `Wake.MinusOneHourIsAccepted` | crates/barista-cli/src/wake.rs:109-116 | an hour of -1 is accepted, as the evening before |
| `Wake.PanicsExactlyWhen` | crates/barista-cli/src/wake.rs:159-166 | after an acceptable time the parser panics if and only if the offset's four bytes have a character across the middle |
| `Wake.AsciiNeverPanics` | crates/barista-cli/src/wake.rs:79-173 | nothing in plain ASCII panics |
| `Wake.AnAccentedOffsetPanics` | crates/barista-cli/src/wake.rs:159-166 | an offset that does |
| `Base64.AlphabetIsTheTable` | crates/barista-fleet/src/desired.rs:102 | the alphabet is table 1 of RFC 4648 |
| `Base64.Symbol` | crates/barista-fleet/src/desired.rs:115 | the alphabet's symbol for a six-bit digit |
| `Base64.Position` | crates/barista-fleet/src/desired.rs:129-132 | the search finds exactly a symbol's value |
| `Base64.Encode` | crates/barista-fleet/src/desired.rs:104-122 | four characters for every three bytes begun, symbols spelling the bytes' number in base 64, `=` for the rest |
| `Base64.EncodingIsUnique` | crates/barista-fleet/src/desired.rs:104-122 | which determines the text |
| `Base64.Absorb` | crates/barista-fleet/src/desired.rs:128-139 | whatever the 32-bit accumulator dropped, the bytes out and the bits pending spell what was read |
| `Base64.Decode` | crates/barista-fleet/src/desired.rs:124-141 | accepts exactly text of symbols and paddings, gives the whole bytes its symbols spell, and otherwise names the first bad byte |
| `Base64.EncodeThenDecode` | crates/barista-fleet/src/desired.rs:104-141 | for all bytes, decoding the encoding gives them back |
| `Tail.Ring.Push` | crates/barista-guest-agent/src/cmd.rs:70-80 | whatever stream the ring followed, it now follows that stream with the write after it |
| `Tail.LastOfJoined` | crates/barista-guest-agent/src/cmd.rs:70-80 | copying only the last bytes of a write loses nothing |
| `Tail.LeavesTheLast` | crates/barista-guest-agent/src/cmd.rs:22-24 | what is kept is the last 4096 bytes, or the whole stream if shorter |
| `Tail.PushAll` | crates/barista-guest-agent/src/cmd.rs:57-80 | after pushes of any sizes it holds exactly the last bytes of the whole stream, and dropped plus kept is the total |
| `Tail.Ring.Drain` | crates/barista-guest-agent/src/cmd.rs:100-112 | draining a pipe follows everything read before the end or an error |
| `Tail.Ring.IntoString` | crates/barista-guest-agent/src/cmd.rs:82-96 | the text is the whole stream, or its last bytes behind a line that says how many come before |
| `Tail.DecimalReadsBack` | crates/barista-guest-agent/src/cmd.rs:94 | the number in that line reads back as the number dropped |
| `Tail.LineStatesTheCount` | crates/barista-guest-agent/src/cmd.rs:94 | the first number in the line, right after its bracket, is the number dropped |
| `Tail.LineNamesTheLimit` | crates/barista-guest-agent/src/cmd.rs:92-95 | the rest of the line names the limit |

## Left out

- SQLite, the object-store client, protocol buffers, JSON and the async runtime: tables are maps, transactions atomic steps, and the bucket one record with a tag per name.
- SHA-256 and hexadecimal: the streams are proved injective before hashing; the digest is not modelled.
- 64-bit overflow of epochs, cursors, counters and millisecond clocks: integers are unbounded except in the base64 accumulator and the manifest's encodings.
- Liveness: that fencing is retried until it succeeds, or that a session converges.
- `release_intent`, `release_sweep` and recovery at start-up: decision tables and loops over them; the release write itself is in `LeaseWrites`.
- The run state a stamp carries: it is a parameter, so nothing is claimed about its freshness.
- `claim_wake`, `claim_ttl_expiry` and `insert_operation`, which bypass `submit_atomically`: the first two appear only as the row write `TakeWake` in `Journal`.
- Capsule operations, credentials, snapshots and run epochs in the journal: columns that no property here reads, except the imported snapshot row a capsule deletion removes.
- The remote object tier and the staging sweep: only the local store's commit and removal are in `ObjectGc`.
- Closed subscriber channels, bus shutdown and store errors in the watch: they end the stream with a status, and the model stops there.
- `parse_when`'s durations and `until`: one expression each.
- The sorting routine behind the canonical stream is the language's own; `Manifest.Sort` stands for it, and `Manifest.SortIsCanonical` shows that any sorting gives the same list.
- Tail.Ring.IntoString: the lossy UTF-8 decoding of the tail is not modelled, because it is the language's own; the text is given as bytes.
- The guest agent, the CLI, admission, grants, restore, passthrough and the scripts: foreign calls, rendering or branch tables.
- Outages.Fleet.Pass: the acquisitions, recordings and releases of a pass are given as the changes they made to the held map.
- LeaseWrites.NoFalseFence: the refused write may also follow an accepted write of this node's own whose reply was lost, because such a write leaves a stale version in the held map.
- Sessions.OncePerTerminalInstanceWhen: one direction over whole runs; it is a condition on the instance's moves alone; the exact one is `Sessions.TwiceExactlyAfterAWriteBack`.
