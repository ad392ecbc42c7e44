/**
 The operation journal (crates/barista-node-agent/src/db.rs, tables `instances` and
 `operations`).

 Each transaction is one function from tables to tables, and one method of `Db`
 proved to compute it.  A crash is `Reopen` between any two transactions.
 */
module Journal {
  import opened Prelude
  import opened States

  type Id = string
  type OpId = string
  type Key = string

  datatype StopReason = StopReason(requested: bool, exitCode: Option<int>, detail: string)

  datatype Instance = Instance(
    state: InstanceState, ready: bool, ttlMs: Option<int>, wakeMs: Option<int>,
    stop: Option<StopReason>, updatedMs: int)

  datatype ForkMode = NoForkMode | CopyOnWrite | FullCopy

  /** `active` is the executor's claim on the instance; it is not the reported outcome.
      `froze` and `forkMode` are what the executor noted of its work. */
  datatype Op = Op(
    kind: OpKind, instance: Id, key: Key, payload: string, state: OpState, step: string,
    reason: int, message: string, degraded: string, createdMs: int, finishedMs: Option<int>,
    froze: bool, forkMode: ForkMode, active: bool)

  datatype Tables = Tables(instances: map<Id, Instance>, ops: map<OpId, Op>)

  // ---------------------------------------------------------------------------
  // Submission
  // ---------------------------------------------------------------------------

  /** A deadline as the reconciler observed it, to be consumed by the submission it causes. */
  datatype Claim = TtlExpiry(observedMs: int) | Wake(observedMs: int)

  function Column(row: Instance, claim: Claim): Option<int> {
    if claim.TtlExpiry? then row.ttlMs else row.wakeMs
  }

  function Cleared(row: Instance, claim: Claim, nowMs: int): Instance {
    (if claim.TtlExpiry? then row.(ttlMs := None) else row.(wakeMs := None)).(updatedMs := nowMs)
  }

  /** Only the deadline actually observed, and only once due, can be taken. */
  predicate Claimable(row: Instance, claim: Claim, nowMs: int) {
    Column(row, claim) == Some(claim.observedMs) && claim.observedMs <= nowMs
  }

  /** `spec` is the id of the instance to create, for the kinds that create one; `minted`
      whether its channel identity could be produced. */
  datatype Request = Request(
    opId: OpId, kind: OpKind, instance: Id, key: Key, payload: string, createdMs: int,
    spec: Option<Id>, minted: bool, claim: Option<Claim>)

  datatype Submission =
    | Journaled(recorded: InstanceState)
    | Replay(original: Op)
    | Conflict
    | Rejected
    | ClaimSuperseded
    | SqlError

  ghost predicate KeyUsed(t: Tables, key: Key) {
    exists o :: o in t.ops && t.ops[o].key == key
  }

  ghost predicate Busy(t: Tables, instance: Id) {
    exists o :: o in t.ops && t.ops[o].instance == instance && t.ops[o].active
  }

  /** The state the instance row will say while the operation runs, if it may start at all. */
  function Target(t: Tables, r: Request): Option<InstanceState> {
    if r.spec.Some? then (if r.instance in t.instances then None else Some(Transitional(r.kind)))
    else if r.instance !in t.instances then None
    else Plan(r.kind, t.instances[r.instance].state)
  }

  function NewOp(r: Request): Op {
    Op(r.kind, r.instance, r.key, r.payload, Queued, "", 0, "", "", r.createdMs, None, false, NoForkMode, true)
  }

  function NewInstance(nowMs: int): Instance {
    Instance(Creating, false, None, None, None, nowMs)
  }

  function Moved(row: Instance, to: InstanceState, claim: Option<Claim>, nowMs: int): Instance {
    (if claim.Some? then Cleared(row, claim.value, nowMs) else row).(state := to, updatedMs := nowMs)
  }

  /** The verdict, from the tables alone. */
  ghost function Verdict(t: Tables, r: Request, nowMs: int): Submission {
    if KeyUsed(t, r.key) then (var o :| o in t.ops && t.ops[o].key == r.key; Replay(t.ops[o]))
    else if Busy(t, r.instance) then Conflict
    else if Target(t, r).None? then Rejected
    else if r.claim.Some? && !(r.instance in t.instances && Claimable(t.instances[r.instance], r.claim.value, nowMs))
      then ClaimSuperseded
    else if r.opId in t.ops || (r.spec.Some? && (!r.minted || r.spec.value in t.instances)) then SqlError
    else Journaled(Target(t, r).value)
  }

  /** Everything is written, or nothing is. */
  ghost function Submit(t: Tables, r: Request, nowMs: int): Tables {
    if !Verdict(t, r, nowMs).Journaled? then t
    else Tables(
      if r.spec.Some? then t.instances[r.spec.value := NewInstance(nowMs)]
      else t.instances[r.instance := Moved(t.instances[r.instance], Target(t, r).value, r.claim, nowMs)],
      t.ops[r.opId := NewOp(r)])
  }

  // ---------------------------------------------------------------------------
  // Narration, waiting, cancelling
  // ---------------------------------------------------------------------------

  function SetStep(t: Tables, o: OpId, step: string): Tables {
    if o in t.ops && InFlight(t.ops[o].state)
    then t.(ops := t.ops[o := t.ops[o].(state := InProgress, step := step)]) else t
  }

  function Await(t: Tables, o: OpId, prompt: string): Tables {
    if o in t.ops && OpCanTransition(t.ops[o].state, AwaitingInput)
    then t.(ops := t.ops[o := t.ops[o].(state := AwaitingInput, step := prompt)]) else t
  }

  function ResumeInput(t: Tables, o: OpId, step: string): Tables {
    if o in t.ops && t.ops[o].state == AwaitingInput
    then t.(ops := t.ops[o := t.ops[o].(state := InProgress, step := step)]) else t
  }

  /** Cancelling settles the outcome.  The claim stays with the executor, unless the
      operation was parked on input and nothing is executing. */
  function Cancel(t: Tables, o: OpId, reason: string, nowMs: int): Tables {
    if o in t.ops && OpCanTransition(t.ops[o].state, Canceled) then
      t.(ops := t.ops[o := t.ops[o].(state := Canceled, message := reason, step := "", finishedMs := Some(nowMs),
                                     active := t.ops[o].active && t.ops[o].state != AwaitingInput)])
    else t
  }

  /** The executor's two notes, written whatever the operation's state. */
  function NoteFroze(t: Tables, o: OpId): Tables {
    if o in t.ops then t.(ops := t.ops[o := t.ops[o].(froze := true)]) else t
  }

  function NoteForkMode(t: Tables, o: OpId, mode: ForkMode): Tables {
    if o in t.ops then t.(ops := t.ops[o := t.ops[o].(forkMode := mode)]) else t
  }

  // ---------------------------------------------------------------------------
  // Finalizing
  // ---------------------------------------------------------------------------

  datatype Outcome = Succeeded | FailedWith(reason: int, message: string)

  /** What an executor reports: the instance state it measured, and how its work went. */
  datatype Final = Final(
    state: InstanceState, ttlMs: Option<int>, stop: Option<StopReason>, clearReady: bool,
    degraded: string, outcome: Outcome)

  datatype Finalized = Finalized(readinessChanged: bool, outcomeRecorded: bool) | NotFinalized

  function Landed(row: Instance, f: Final, nowMs: int): Instance {
    row.(state := f.state, ttlMs := f.ttlMs, stop := f.stop, updatedMs := nowMs,
         ready := row.ready && !f.clearReady)
  }

  function Settle(op: Op, f: Final, nowMs: int): Op {
    match f.outcome
    case Succeeded => op.(state := Done, finishedMs := Some(nowMs), step := "", degraded := f.degraded, active := false)
    case FailedWith(reason, message) =>
      op.(state := OpFailed, finishedMs := Some(nowMs), reason := reason, message := message,
          degraded := f.degraded, active := false)
  }

  /** A cancelled operation may still land its instance, along an edge the table has. */
  predicate MayLand(t: Tables, i: Id, to: InstanceState) {
    i in t.instances && (t.instances[i].state == to || CanTransition(t.instances[i].state, to))
  }

  function FinishVerdict(t: Tables, o: OpId, i: Id, f: Final): Finalized {
    var readiness := i in t.instances && t.instances[i].ready && f.clearReady;
    if o !in t.ops then NotFinalized
    else if InFlight(t.ops[o].state) then Finalized(readiness, true)
    else if t.ops[o].state == Canceled && MayLand(t, i, f.state) then Finalized(readiness, false)
    else NotFinalized
  }

  function Finish(t: Tables, o: OpId, i: Id, f: Final, nowMs: int): Tables {
    if FinishVerdict(t, o, i, f).NotFinalized? then t
    else Tables(
      if i in t.instances then t.instances[i := Landed(t.instances[i], f, nowMs)] else t.instances,
      t.ops[o := if InFlight(t.ops[o].state) then Settle(t.ops[o], f, nowMs) else t.ops[o].(active := false)])
  }

  // ---------------------------------------------------------------------------
  // Crash and recovery
  // ---------------------------------------------------------------------------

  /** Opening the journal: no executor survived, so only unsettled rows keep a claim. */
  function Reopen(t: Tables): (r: Tables) {
    t.(ops := map o | o in t.ops :: t.ops[o].(active := InFlight(t.ops[o].state)))
  }

  function FailOne(op: Op, message: string, nowMs: int): Op {
    op.(state := OpFailed, reason := 0, message := message, finishedMs := Some(nowMs), active := false)
  }

  /** Crash recovery over the whole table. */
  function FailInflight(t: Tables, message: string, nowMs: int): (r: Tables) {
    t.(ops := map o | o in t.ops :: if InFlight(t.ops[o].state) then FailOne(t.ops[o], message, nowMs) else t.ops[o])
  }

  // ---------------------------------------------------------------------------
  // The journal as an object
  // ---------------------------------------------------------------------------

  /** The `UNIQUE` column. */
  ghost predicate KeysUnique(t: Tables) {
    forall o, p :: o in t.ops && p in t.ops && t.ops[o].key == t.ops[p].key ==> o == p
  }

  class Db {
    var instances: map<Id, Instance>
    var ops: map<OpId, Op>

    ghost function Content(): Tables
      reads this
    {
      Tables(instances, ops)
    }

    constructor ()
      ensures Content() == Tables(map[], map[])
    {
      instances, ops := map[], map[];
    }

    method TakeDeadline(i: Id, claim: Claim, nowMs: int) returns (taken: bool)
      modifies this
      ensures ops == old(ops)
      ensures taken == (i in old(instances) && Claimable(old(instances)[i], claim, nowMs))
      ensures instances == if taken then old(instances)[i := Cleared(old(instances)[i], claim, nowMs)] else old(instances)
    {
      taken := false;
      if i in instances {
        var row := instances[i];
        match claim
        case TtlExpiry(expected) =>
          if row.ttlMs == Some(expected) && expected <= nowMs {
            instances := instances[i := row.(ttlMs := None, updatedMs := nowMs)];
            taken := true;
          }
        case Wake(expected) =>
          if row.wakeMs == Some(expected) && expected <= nowMs {
            instances := instances[i := row.(wakeMs := None, updatedMs := nowMs)];
            taken := true;
          }
      }
    }

    method SubmitAtomically(r: Request, nowMs: int) returns (verdict: Submission)
      requires KeysUnique(Content())
      modifies this
      ensures verdict == Verdict(old(Content()), r, nowMs)
      ensures Content() == Submit(old(Content()), r, nowMs)
    {
      if o :| o in ops && ops[o].key == r.key {
        return Replay(ops[o]);
      }
      if o :| o in ops && ops[o].instance == r.instance && ops[o].active {
        return Conflict;
      }
      var recorded := Transitional(r.kind);
      if r.spec.Some? {
        if r.instance in instances {
          return Rejected;
        }
      } else {
        if r.instance !in instances {
          return Rejected;
        }
        var planned := Plan(r.kind, instances[r.instance].state);
        if planned.None? {
          return Rejected;
        }
        recorded := planned.value;
      }
      var before := instances;
      if r.claim.Some? {
        var taken := TakeDeadline(r.instance, r.claim.value, nowMs);
        if !taken {
          return ClaimSuperseded;
        }
      }
      if r.opId in ops {
        instances := before;
        return SqlError;
      }
      if r.spec.Some? {
        if !r.minted || r.spec.value in instances {
          instances := before;
          return SqlError;
        }
        instances := instances[r.spec.value := Instance(Creating, false, None, None, None, nowMs)];
      } else {
        instances := instances[r.instance := instances[r.instance].(state := recorded, updatedMs := nowMs)];
      }
      ops := ops[r.opId := Op(r.kind, r.instance, r.key, r.payload, Queued, "", 0, "", "", r.createdMs, None, false, NoForkMode, true)];
      verdict := Journaled(recorded);
    }

    method SetOpStep(o: OpId, step: string)
      modifies this`ops
      ensures Content() == SetStep(old(Content()), o, step)
    {
      if o in ops && InFlight(ops[o].state) {
        ops := ops[o := ops[o].(state := InProgress, step := step)];
      }
    }

    method AwaitOpInput(o: OpId, prompt: string) returns (ok: bool)
      modifies this`ops
      ensures Content() == Await(old(Content()), o, prompt)
      ensures ok <==> o in old(ops) && old(ops)[o].state == InProgress
    {
      ok := o in ops && OpCanTransition(ops[o].state, AwaitingInput);
      if ok {
        ops := ops[o := ops[o].(state := AwaitingInput, step := prompt)];
      }
    }

    method ResumeOpFromInput(o: OpId, step: string) returns (ok: bool)
      modifies this`ops
      ensures Content() == ResumeInput(old(Content()), o, step)
      ensures ok <==> o in old(ops) && old(ops)[o].state == AwaitingInput
    {
      ok := o in ops && ops[o].state == AwaitingInput;
      if ok {
        ops := ops[o := ops[o].(state := InProgress, step := step)];
      }
    }

    method FinishOpCanceled(o: OpId, reason: string, nowMs: int) returns (ok: bool)
      modifies this`ops
      ensures Content() == Cancel(old(Content()), o, reason, nowMs)
      ensures ok <==> o in old(ops) && InFlight(old(ops)[o].state)
    {
      ok := o in ops && OpCanTransition(ops[o].state, Canceled);
      if ok {
        var claim := if ops[o].state == AwaitingInput then false else ops[o].active;
        ops := ops[o := ops[o].(state := Canceled, message := reason, step := "", finishedMs := Some(nowMs), active := claim)];
      }
    }

    method SetOpFrozeWorkload(o: OpId)
      modifies this`ops
      ensures Content() == NoteFroze(old(Content()), o)
    {
      if o in ops {
        ops := ops[o := ops[o].(froze := true)];
      }
    }

    method SetOpForkMode(o: OpId, mode: ForkMode)
      modifies this`ops
      ensures Content() == NoteForkMode(old(Content()), o, mode)
    {
      if o in ops {
        ops := ops[o := ops[o].(forkMode := mode)];
      }
    }

    /** The instance is written first and the operation second; a refusal rolls both back. */
    method FinishOperation(o: OpId, i: Id, f: Final, nowMs: int) returns (result: Finalized)
      modifies this
      ensures result == FinishVerdict(old(Content()), o, i, f)
      ensures Content() == Finish(old(Content()), o, i, f, nowMs)
    {
      var before := instances;
      var was: Option<InstanceState> := None;
      var readinessChanged := false;
      if i in instances {
        var row := instances[i];
        was := Some(row.state);
        row := row.(state := f.state, updatedMs := nowMs);
        row := row.(stop := f.stop);
        row := row.(ttlMs := f.ttlMs);
        if f.clearReady && row.ready {
          row := row.(ready := false);
          readinessChanged := true;
        }
        instances := instances[i := row];
      }
      if o in ops && InFlight(ops[o].state) {
        var op := ops[o].(finishedMs := Some(nowMs), degraded := f.degraded, active := false);
        match f.outcome {
          case Succeeded => op := op.(state := Done, step := "");
          case FailedWith(reason, message) => op := op.(state := OpFailed, reason := reason, message := message);
        }
        ops := ops[o := op];
        return Finalized(readinessChanged, true);
      }
      if o !in ops || ops[o].state != Canceled {
        instances := before;
        return NotFinalized;
      }
      if was.None? || !(was.value == f.state || CanTransition(was.value, f.state)) {
        instances := before;
        return NotFinalized;
      }
      ops := ops[o := ops[o].(active := false)];
      result := Finalized(readinessChanged, false);
    }

    /** The claim reset in `open`. */
    method ResetClaims()
      modifies this`ops
      ensures Content() == Reopen(old(Content()))
    {
      ops := map o | o in ops :: ops[o].(active := InFlight(ops[o].state));
    }

    /** Collect the unsettled ids, then fail them one transaction at a time. */
    method FailInflightOps(message: string, nowMs: int)
      modifies this`ops
      ensures Content() == FailInflight(old(Content()), message, nowMs)
    {
      var ids := set o | o in ops && InFlight(ops[o].state);
      while ids != {}
        invariant ids <= ops.Keys == old(ops).Keys
        invariant forall o :: o in ids ==> ops[o] == old(ops)[o] && InFlight(ops[o].state)
        invariant forall o :: o in ops && o !in ids ==>
                    ops[o] == FailInflight(old(Content()), message, nowMs).ops[o]
        decreases |ids|
      {
        var o :| o in ids;
        ops := ops[o := ops[o].(state := OpFailed, reason := 0, message := message, finishedMs := Some(nowMs), active := false)];
        ids := ids - {o};
      }
    }
  }

  // ---------------------------------------------------------------------------
  // Runs
  // ---------------------------------------------------------------------------

  /** Everything that may happen to the tables.  `Recover` is one transaction of crash
      recovery; `Deadline`, `Touch` and `TakeWake` are the writers of instance rows outside
      operations. */
  datatype Action =
    | Submitting(request: Request, nowMs: int)
    | Stepping(op: OpId, step: string)
    | Awaiting(op: OpId, prompt: string)
    | Resuming(op: OpId, step: string)
    | Canceling(op: OpId, reason: string, nowMs: int)
    | NotingFroze(op: OpId)
    | NotingForkMode(op: OpId, mode: ForkMode)
    | Finishing(op: OpId, final: Final, nowMs: int)
    | Crash
    | Recover(op: OpId, message: string, nowMs: int)
    | Touch(instance: Id, state: InstanceState, ready: bool, nowMs: int)
    | Deadline(instance: Id, ttlMs: Option<int>, wakeMs: Option<int>, nowMs: int)
    | TakeWake(instance: Id, claim: Claim, nowMs: int)

  /** An executor finalizes the instance its operation names.  Recovery collects the unsettled
      operations before anything else runs, so each it fails is unsettled still. */
  ghost function Apply(t: Tables, a: Action): Tables {
    match a
    case Submitting(r, nowMs) => Submit(t, r, nowMs)
    case Stepping(o, step) => SetStep(t, o, step)
    case Awaiting(o, prompt) => Await(t, o, prompt)
    case Resuming(o, step) => ResumeInput(t, o, step)
    case Canceling(o, reason, nowMs) => Cancel(t, o, reason, nowMs)
    case NotingFroze(o) => NoteFroze(t, o)
    case NotingForkMode(o, mode) => NoteForkMode(t, o, mode)
    case Finishing(o, f, nowMs) => if o in t.ops then Finish(t, o, t.ops[o].instance, f, nowMs) else t
    case Crash => Reopen(t)
    case Recover(o, message, nowMs) =>
      if o in t.ops && InFlight(t.ops[o].state) then t.(ops := t.ops[o := FailOne(t.ops[o], message, nowMs)]) else t
    case Touch(i, state, ready, nowMs) =>
      if i in t.instances
      then t.(instances := t.instances[i := t.instances[i].(state := state, ready := ready, updatedMs := nowMs)]) else t
    case Deadline(i, ttlMs, wakeMs, nowMs) =>
      if i in t.instances
      then t.(instances := t.instances[i := t.instances[i].(ttlMs := ttlMs, wakeMs := wakeMs, updatedMs := nowMs)]) else t
    case TakeWake(i, claim, nowMs) =>
      if i in t.instances && Claimable(t.instances[i], claim, nowMs)
      then t.(instances := t.instances[i := Cleared(t.instances[i], claim, nowMs)]) else t
  }

  ghost predicate Run(b: seq<Tables>, actions: seq<Action>) {
    |b| == |actions| + 1 && b[0] == Tables(map[], map[]) &&
    forall i :: 0 <= i < |actions| ==> b[i + 1] == Apply(b[i], actions[i])
  }

  /** An unsettled operation is claimed; a claim without an unsettled operation is a
      cancelled one whose executor is still out there. */
  ghost predicate ClaimFits(op: Op) {
    && (InFlight(op.state) || Settled(op.state))
    && (InFlight(op.state) ==> op.active)
    && (op.active && !InFlight(op.state) ==> op.state == Canceled)
  }

  ghost predicate OneExecutor(t: Tables) {
    forall o, p ::
      (o in t.ops && p in t.ops && t.ops[o].active && t.ops[p].active && t.ops[o].instance == t.ops[p].instance) ==>
        o == p
  }

  ghost predicate Inv(t: Tables) {
    KeysUnique(t) && OneExecutor(t) && forall o :: o in t.ops ==> ClaimFits(t.ops[o])
  }

  /** Rewriting rows without touching their keys or instances, and without new claims. */
  lemma RewritingKeepsInv(t: Tables, t': Tables)
    requires Inv(t) && t'.ops.Keys == t.ops.Keys
    requires forall o :: o in t.ops ==>
               && t'.ops[o].key == t.ops[o].key && t'.ops[o].instance == t.ops[o].instance
               && (t'.ops[o].active ==> t.ops[o].active) && ClaimFits(t'.ops[o])
    ensures Inv(t')
  {
  }

  lemma JournalingKeepsInv(t: Tables, r: Request, nowMs: int)
    requires Inv(t)
    ensures Inv(Submit(t, r, nowMs))
  {
    if Verdict(t, r, nowMs).Journaled? {
      assert forall o :: o in t.ops ==> t.ops[o].key != r.key;
      assert forall o :: o in t.ops && t.ops[o].active ==> t.ops[o].instance != r.instance;
    }
  }

  /** Everything a caller was told, the executor's two notes aside. */
  ghost predicate SameOutcome(a: Op, b: Op) {
    a == b.(active := a.active, froze := a.froze, forkMode := a.forkMode)
  }

  ghost predicate SameIdentity(a: Op, b: Op) {
    a.kind == b.kind && a.instance == b.instance && a.key == b.key && a.payload == b.payload && a.createdMs == b.createdMs
  }

  /** What no transaction does to a row: lose its identity, break its claim, claim afresh, or
      touch a settled outcome. */
  ghost predicate Rewritten(a: Op, b: Op) {
    && SameIdentity(a, b) && ClaimFits(b) && (b.active ==> a.active)
    && (Settled(a.state) ==> SameOutcome(a, b))
  }

  lemma RowIsRewritten(t: Tables, a: Action, o: OpId)
    requires !a.Submitting? && o in t.ops && ClaimFits(t.ops[o])
    ensures o in Apply(t, a).ops && Rewritten(t.ops[o], Apply(t, a).ops[o])
  {
    match a
    case Finishing(_, _, _) => FinishingRewrites(t, a, o);
    case _ =>
  }

  lemma FinishingRewrites(t: Tables, a: Action, o: OpId)
    requires a.Finishing? && o in t.ops && ClaimFits(t.ops[o])
    ensures o in Apply(t, a).ops && Rewritten(t.ops[o], Apply(t, a).ops[o])
  {
  }

  lemma NoRowAppears(t: Tables, a: Action)
    requires !a.Submitting?
    ensures Apply(t, a).ops.Keys == t.ops.Keys
  {
  }

  lemma ApplyKeepsInv(t: Tables, a: Action)
    requires Inv(t)
    ensures Inv(Apply(t, a))
  {
    if a.Submitting? {
      JournalingKeepsInv(t, a.request, a.nowMs);
    } else {
      var t' := Apply(t, a);
      NoRowAppears(t, a);
      forall o | o in t.ops
        ensures o in t'.ops && Rewritten(t.ops[o], t'.ops[o])
      {
        RowIsRewritten(t, a, o);
      }
      RewritingKeepsInv(t, t');
    }
  }

  lemma {:induction false} RunKeepsInv(b: seq<Tables>, actions: seq<Action>, i: nat)
    requires Run(b, actions) && i < |b|
    ensures Inv(b[i])
  {
    if i > 0 {
      RunKeepsInv(b, actions, i - 1);
      ApplyKeepsInv(b[i - 1], actions[i - 1]);
    }
  }

  /** In every reachable journal: at most one operation per instance has an executor, every
      unsettled operation has one, and an executor without an unsettled operation belongs to
      a cancelled one. */
  lemma ClaimsAreExclusive(b: seq<Tables>, actions: seq<Action>, i: nat, o: OpId, p: OpId)
    requires Run(b, actions) && i < |b| && o in b[i].ops && p in b[i].ops
    ensures b[i].ops[o].active && b[i].ops[p].active && b[i].ops[o].instance == b[i].ops[p].instance ==> o == p
    ensures InFlight(b[i].ops[o].state) ==> b[i].ops[o].active
    ensures b[i].ops[o].active && !InFlight(b[i].ops[o].state) ==> b[i].ops[o].state == Canceled
    ensures b[i].ops[o].key == b[i].ops[p].key ==> o == p
  {
    RunKeepsInv(b, actions, i);
  }

  /** Whatever the journal held, reopening it and failing what was unsettled frees every
      claim, leaves nothing unsettled, and keeps every outcome that had been reported. */
  lemma RecoveryFreesEveryClaim(t: Tables, message: string, nowMs: int)
    ensures var r := FailInflight(Reopen(t), message, nowMs);
            && r.ops.Keys == t.ops.Keys && r.instances == t.instances
            && (forall o :: o in r.ops ==> !r.ops[o].active && !InFlight(r.ops[o].state))
            && (forall o :: o in r.ops && !InFlight(t.ops[o].state) ==> r.ops[o] == t.ops[o].(active := false))
            && (forall o :: o in r.ops && InFlight(t.ops[o].state) ==>
                  && SameIdentity(t.ops[o], r.ops[o]) && r.ops[o].state == OpFailed
                  && r.ops[o].message == message && r.ops[o].reason == 0 && r.ops[o].finishedMs == Some(nowMs))
  {
  }

  // ---- settled is final ------------------------------------------------------

  lemma StepKeepsOutcomes(t: Tables, a: Action, o: OpId)
    requires Inv(t) && o in t.ops
    ensures o in Apply(t, a).ops && Rewritten(t.ops[o], Apply(t, a).ops[o])
  {
    if !a.Submitting? {
      RowIsRewritten(t, a, o);
    }
  }

  lemma RewrittenInRun(b: seq<Tables>, actions: seq<Action>, j: nat, o: OpId)
    requires Run(b, actions) && 0 < j < |b| && o in b[j - 1].ops
    ensures o in b[j].ops && Rewritten(b[j - 1].ops[o], b[j].ops[o])
  {
    RunKeepsInv(b, actions, j - 1);
    StepKeepsOutcomes(b[j - 1], actions[j - 1], o);
  }

  /** No later sequence of steps, waits, cancels, notes, finishes, crashes and recoveries
      changes a settled operation's state, step, error, degradation, times or identity, or
      gives it back a claim it has lost. */
  lemma {:induction false} SettledIsFinal(b: seq<Tables>, actions: seq<Action>, i: nat, j: nat, o: OpId)
    requires Run(b, actions) && i <= j < |b| && o in b[i].ops
    ensures o in b[j].ops && SameIdentity(b[i].ops[o], b[j].ops[o])
    ensures Settled(b[i].ops[o].state) ==> SameOutcome(b[i].ops[o], b[j].ops[o])
    ensures b[j].ops[o].active ==> b[i].ops[o].active
    decreases j - i
  {
    if i < j {
      SettledIsFinal(b, actions, i, j - 1, o);
      RewrittenInRun(b, actions, j, o);
    }
  }

  /** The mode last noted in a stretch of a run, or the one it started with. */
  ghost function LastMode(actions: seq<Action>, i: nat, j: nat, o: OpId, mode: ForkMode): ForkMode
    requires i <= j <= |actions|
    decreases j
  {
    if i == j then mode
    else if actions[j - 1].NotingForkMode? && actions[j - 1].op == o then actions[j - 1].mode
    else LastMode(actions, i, j - 1, o, mode)
  }

  lemma NotesMoveOnlyByNoting(t: Tables, a: Action, o: OpId)
    requires o in t.ops
    ensures o in Apply(t, a).ops
    ensures Apply(t, a).ops[o].froze <==> t.ops[o].froze || a == NotingFroze(o)
    ensures Apply(t, a).ops[o].forkMode == if a.NotingForkMode? && a.op == o then a.mode else t.ops[o].forkMode
  {
    match a
    case Submitting(_, _) =>
    case Finishing(p, f, nowMs) => if p in t.ops { FinishingKeepsNotes(t, p, f, nowMs, o); }
    case Touch(_, _, _, _) =>
    case Deadline(_, _, _, _) =>
    case TakeWake(_, _, _) =>
    case _ => OtherStepsKeepNotes(t, a, o);
  }

  lemma FinishingKeepsNotes(t: Tables, p: OpId, f: Final, nowMs: int, o: OpId)
    requires p in t.ops && o in t.ops
    ensures var t' := Finish(t, p, t.ops[p].instance, f, nowMs);
            o in t'.ops && t'.ops[o].froze == t.ops[o].froze && t'.ops[o].forkMode == t.ops[o].forkMode
  {
  }

  lemma OtherStepsKeepNotes(t: Tables, a: Action, o: OpId)
    requires o in t.ops && !a.Submitting? && !a.Finishing?
    ensures o in Apply(t, a).ops
    ensures Apply(t, a).ops[o].froze <==> t.ops[o].froze || a == NotingFroze(o)
    ensures Apply(t, a).ops[o].forkMode == if a.NotingForkMode? && a.op == o then a.mode else t.ops[o].forkMode
  {
  }

  /** The freeze was noted in this stretch of a run. */
  ghost predicate NotedIn(actions: seq<Action>, i: nat, j: nat, o: OpId)
    requires i <= j <= |actions|
    decreases j
  {
    i < j && (actions[j - 1] == NotingFroze(o) || NotedIn(actions, i, j - 1, o))
  }

  lemma NotesAfterStep(b: seq<Tables>, actions: seq<Action>, j: nat, o: OpId)
    requires Run(b, actions) && 0 < j < |b| && o in b[j - 1].ops
    ensures o in b[j].ops
    ensures b[j].ops[o].froze <==> b[j - 1].ops[o].froze || actions[j - 1] == NotingFroze(o)
    ensures b[j].ops[o].forkMode == if actions[j - 1].NotingForkMode? && actions[j - 1].op == o
                                    then actions[j - 1].mode else b[j - 1].ops[o].forkMode
  {
    NotesMoveOnlyByNoting(b[j - 1], actions[j - 1], o);
  }

  /** Exactly when the rest of the report moves, settled or not: the freeze is reported if and
      only if it was, or has been noted since, and the fork mode is the last one noted. */
  lemma {:induction false} NotesAreExactlyWhatWasNoted(b: seq<Tables>, actions: seq<Action>, i: nat, j: nat, o: OpId)
    requires Run(b, actions) && i <= j < |b| && o in b[i].ops
    ensures o in b[j].ops
    ensures b[j].ops[o].froze <==> b[i].ops[o].froze || NotedIn(actions, i, j, o)
    ensures b[j].ops[o].forkMode == LastMode(actions, i, j, o, b[i].ops[o].forkMode)
    decreases j - i
  {
    if i < j {
      NotesAreExactlyWhatWasNoted(b, actions, i, j - 1, o);
      NotesAfterStep(b, actions, j, o);
    }
  }

  /** So the whole row of a settled operation that has lost its claim stays as it is if and
      only if what is noted after that says nothing new. */
  lemma ReleasedIsFinalExactlyWhen(b: seq<Tables>, actions: seq<Action>, i: nat, j: nat, o: OpId)
    requires Run(b, actions) && i <= j < |b| && o in b[i].ops && Settled(b[i].ops[o].state) && !b[i].ops[o].active
    ensures o in b[j].ops
    ensures b[j].ops[o] == b[i].ops[o] <==>
              && (NotedIn(actions, i, j, o) ==> b[i].ops[o].froze)
              && LastMode(actions, i, j, o, b[i].ops[o].forkMode) == b[i].ops[o].forkMode
  {
    SettledIsFinal(b, actions, i, j, o);
    NotesAreExactlyWhatWasNoted(b, actions, i, j, o);
  }

  /** Finishing what is no longer running changes nothing at all, unless it is cancelled and its
      instance may land: then exactly the instance lands and exactly its claim is handed back. */
  lemma FinishingCanceledIsAllOrNothing(t: Tables, o: OpId, i: Id, f: Final, nowMs: int)
    requires o in t.ops ==> !InFlight(t.ops[o].state)
    ensures var r := Finish(t, o, i, f, nowMs);
            if o in t.ops && t.ops[o].state == Canceled && i in t.instances &&
               (t.instances[i].state == f.state || CanTransition(t.instances[i].state, f.state))
            then FinishVerdict(t, o, i, f) == Finalized(t.instances[i].ready && f.clearReady, false)
              && r.ops == t.ops[o := t.ops[o].(active := false)]
              && r.instances.Keys == t.instances.Keys && r.instances[i].state == f.state
              && r.instances[i].wakeMs == t.instances[i].wakeMs
              && (forall k :: k in t.instances && k != i ==> r.instances[k] == t.instances[k])
            else FinishVerdict(t, o, i, f) == NotFinalized && r == t
  {
  }

  /** In every reachable journal, finishing an unsettled operation records exactly the outcome
      reported, frees the one claim its instance had, and lands the instance where it was
      measured; no other row moves. */
  lemma FinishingRecordsTheReport(b: seq<Tables>, actions: seq<Action>, k: nat, o: OpId, f: Final, nowMs: int)
    requires Run(b, actions) && k < |actions| && actions[k] == Finishing(o, f, nowMs)
    requires o in b[k].ops && InFlight(b[k].ops[o].state)
    ensures var op, op', i := b[k].ops[o], b[k + 1].ops[o], b[k].ops[o].instance;
            && SameIdentity(op, op') && Settled(op'.state) && op'.finishedMs == Some(nowMs) && op'.degraded == f.degraded
            && (f.outcome.Succeeded? <==> op'.state == Done)
            && (f.outcome.FailedWith? ==> op'.state == OpFailed && op'.reason == f.outcome.reason &&
                                          op'.message == f.outcome.message && op'.step == op.step)
            && (f.outcome.Succeeded? ==> op'.step == "" && op'.message == op.message)
            && !op'.active && op'.froze == op.froze && op'.forkMode == op.forkMode
            && FinishVerdict(b[k], o, i, f) == Finalized(i in b[k].instances && b[k].instances[i].ready && f.clearReady, true)
            && !Busy(b[k + 1], i)
            && (i in b[k].instances ==>
                  b[k + 1].instances[i] == Instance(f.state, b[k].instances[i].ready && !f.clearReady, f.ttlMs,
                                                    b[k].instances[i].wakeMs, f.stop, nowMs))
            && (forall p :: p in b[k].ops && p != o ==> p in b[k + 1].ops && b[k + 1].ops[p] == b[k].ops[p])
            && (forall j :: j in b[k].instances && j != i ==>
                  j in b[k + 1].instances && b[k + 1].instances[j] == b[k].instances[j])
  {
    RunKeepsInv(b, actions, k);
    assert b[k + 1] == Finish(b[k], o, b[k].ops[o].instance, f, nowMs);
  }

  ghost predicate OnlyClaim(t: Tables, instance: Id, o: OpId) {
    forall p :: p in t.ops && t.ops[p].active && t.ops[p].instance == instance ==> p == o
  }

  /** In every reachable journal, a submission that journals leaves exactly one claim on its
      instance, its own, moves the instance by a legal edge, and moves no other; any other
      verdict changes nothing. */
  lemma SubmissionClaimsItsInstance(b: seq<Tables>, actions: seq<Action>, k: nat, r: Request, nowMs: int)
    requires Run(b, actions) && k < |actions| && actions[k] == Submitting(r, nowMs)
    ensures !Verdict(b[k], r, nowMs).Journaled? ==> b[k + 1] == b[k]
    ensures Verdict(b[k], r, nowMs).Journaled? ==>
              && r.opId !in b[k].ops && !KeyUsed(b[k], r.key) && !Busy(b[k], r.instance)
              && b[k + 1].ops.Keys == b[k].ops.Keys + {r.opId} && b[k + 1].ops[r.opId] == NewOp(r)
              && OnlyClaim(b[k + 1], r.instance, r.opId)
              && (forall o :: o in b[k].ops ==> b[k + 1].ops[o] == b[k].ops[o])
              && (r.spec.None? ==>
                    && r.instance in b[k].instances && b[k + 1].instances.Keys == b[k].instances.Keys
                    && var was, now := b[k].instances[r.instance].state, b[k + 1].instances[r.instance].state;
                       was == now || CanTransition(was, now))
              && (forall j :: j in b[k].instances && j != r.instance ==>
                    j in b[k + 1].instances && b[k + 1].instances[j] == b[k].instances[j])
  {
    RunKeepsInv(b, actions, k);
    assert b[k + 1] == Submit(b[k], r, nowMs);
    if r.instance in b[k].instances {
      PlansAreLegal(r.kind, b[k].instances[r.instance].state);
    }
  }

  /** The deadline a claim names is the one armed, and it is due. */
  predicate DueAs(row: Instance, claim: Claim, nowMs: int) {
    match claim
    case TtlExpiry(at) => row.ttlMs == Some(at) && at <= nowMs
    case Wake(at) => row.wakeMs == Some(at) && at <= nowMs
  }

  ghost predicate KeyFree(t: Tables, key: Key) {
    forall o :: o in t.ops ==> t.ops[o].key != key
  }

  ghost predicate Idle(t: Tables, i: Id) {
    forall o :: o in t.ops && t.ops[o].instance == i ==> !t.ops[o].active
  }

  /** The request may move, or make, its instance. */
  predicate Startable(t: Tables, r: Request) {
    if r.spec.Some? then r.instance !in t.instances
    else r.instance in t.instances && Plan(r.kind, t.instances[r.instance].state).Some?
  }

  predicate ClaimHolds(t: Tables, r: Request, nowMs: int) {
    r.claim.Some? ==> r.instance in t.instances && DueAs(t.instances[r.instance], r.claim.value, nowMs)
  }

  predicate Insertable(t: Tables, r: Request) {
    r.opId !in t.ops && (r.spec.Some? ==> r.minted && r.spec.value !in t.instances)
  }

  /** Every verdict, from the tables alone: the first of the five checks that fails decides, and
      the request is journaled if and only if none does. */
  lemma VerdictFromTheTables(t: Tables, r: Request, nowMs: int)
    ensures Verdict(t, r, nowMs).Replay? <==> !KeyFree(t, r.key)
    ensures Verdict(t, r, nowMs).Conflict? <==> KeyFree(t, r.key) && !Idle(t, r.instance)
    ensures Verdict(t, r, nowMs).Rejected? <==> KeyFree(t, r.key) && Idle(t, r.instance) && !Startable(t, r)
    ensures Verdict(t, r, nowMs).ClaimSuperseded? <==>
              KeyFree(t, r.key) && Idle(t, r.instance) && Startable(t, r) && !ClaimHolds(t, r, nowMs)
    ensures Verdict(t, r, nowMs).Journaled? <==>
              KeyFree(t, r.key) && Idle(t, r.instance) && Startable(t, r) && ClaimHolds(t, r, nowMs) && Insertable(t, r)
    ensures Verdict(t, r, nowMs).Replay? ==>
              exists o :: o in t.ops && t.ops[o].key == r.key && Verdict(t, r, nowMs) == Replay(t.ops[o])
  {
  }

  /** A row as it is journaled: the request's own fields, queued and claimed, and nothing else. */
  predicate AsRequested(op: Op, r: Request) {
    && op.kind == r.kind && op.instance == r.instance && op.key == r.key && op.payload == r.payload
    && op.createdMs == r.createdMs && op.state == Queued && op.active && op.finishedMs == None
    && op.step == "" && op.reason == 0 && op.message == "" && op.degraded == "" && !op.froze && op.forkMode == NoForkMode
  }

  /** In every reachable journal, what a journaled submission writes: the operation as it was
      requested, and its instance in the state the verdict reports.  A new instance is CREATING,
      not ready, without deadlines or a stop reason; one that was there keeps all but its state
      and the deadline claimed. */
  lemma SubmissionWritesTheRequest(b: seq<Tables>, actions: seq<Action>, k: nat, r: Request, nowMs: int)
    requires Run(b, actions) && k < |actions| && actions[k] == Submitting(r, nowMs)
    requires Verdict(b[k], r, nowMs).Journaled?
    ensures r.opId in b[k + 1].ops && AsRequested(b[k + 1].ops[r.opId], r)
    ensures var i := if r.spec.Some? then r.spec.value else r.instance;
            i in b[k + 1].instances &&
            var row, recorded := b[k + 1].instances[i], Verdict(b[k], r, nowMs).recorded;
            && row.updatedMs == nowMs
            && (r.spec.Some? ==> row.state == Creating && !row.ready && row.ttlMs == None && row.wakeMs == None && row.stop == None)
            && (r.spec.Some? && r.kind in {Create, Fork} ==> recorded == Creating)
            && (r.spec.None? ==>
                  && i in b[k].instances && row.state == recorded && Plan(r.kind, b[k].instances[i].state) == Some(recorded)
                  && row.ready == b[k].instances[i].ready && row.stop == b[k].instances[i].stop
                  && row.ttlMs == (if r.claim.Some? && r.claim.value.TtlExpiry? then None else b[k].instances[i].ttlMs)
                  && row.wakeMs == (if r.claim.Some? && r.claim.value.Wake? then None else b[k].instances[i].wakeMs))
  {
    RunKeepsInv(b, actions, k);
    VerdictFromTheTables(b[k], r, nowMs);
    assert b[k + 1] == Submit(b[k], r, nowMs);
  }

  /** Narrating, parking, resuming and cancelling, field by field; each is refused, and changes
      nothing, exactly where the operation is not in a state for it. */
  lemma MovesOfAnOperation(t: Tables, o: OpId, text: string, nowMs: int)
    requires o in t.ops
    ensures var op, op' := t.ops[o], SetStep(t, o, text).ops[o];
            if op.state in {Queued, InProgress, AwaitingInput}
            then op' == op.(state := InProgress, step := text) && op'.state == InProgress && op'.step == text
            else op' == op
    ensures var op, op' := t.ops[o], Await(t, o, text).ops[o];
            if op.state == InProgress
            then op'.state == AwaitingInput && op'.step == text && op'.finishedMs == op.finishedMs && op'.active == op.active
            else op' == op
    ensures var op, op' := t.ops[o], ResumeInput(t, o, text).ops[o];
            if op.state == AwaitingInput then op'.state == InProgress && op'.step == text && op'.active == op.active else op' == op
    ensures var op, op' := t.ops[o], Cancel(t, o, text, nowMs).ops[o];
            if op.state in {Queued, InProgress, AwaitingInput}
            then && op'.state == Canceled && op'.message == text && op'.step == "" && op'.finishedMs == Some(nowMs)
                 && op'.degraded == op.degraded && op'.reason == op.reason
                 && (op'.active <==> op.active && op.state != AwaitingInput)
            else op' == op
    ensures forall p :: p in t.ops && p != o ==>
              SetStep(t, o, text).ops[p] == Await(t, o, text).ops[p] == ResumeInput(t, o, text).ops[p]
              == Cancel(t, o, text, nowMs).ops[p] == t.ops[p]
  {
  }

  /** While one operation holds an instance's claim, another operation's report on that
      instance is taken if and only if that other one is cancelled and the move is an edge. */
  lemma FinishedUnderAnotherExactlyWhen(b: seq<Tables>, actions: seq<Action>, k: nat, o: OpId, p: OpId, f: Final)
    requires Run(b, actions) && k < |b| && o in b[k].ops && p in b[k].ops && o != p
    requires b[k].ops[o].active && b[k].ops[p].instance == b[k].ops[o].instance
    ensures var i := b[k].ops[o].instance;
            FinishVerdict(b[k], p, i, f).Finalized? <==> b[k].ops[p].state == Canceled && MayLand(b[k], i, f.state)
    ensures !b[k].ops[p].active
  {
    RunKeepsInv(b, actions, k);
  }

  ghost predicate Adrift(t: Tables, p: OpId) {
    p in t.ops && t.ops[p].state == Canceled && !t.ops[p].active
  }

  /** A cancelled operation comes to be without its claim in exactly three ways: it was parked
      when cancelled, the process died, or its executor has landed the instance. */
  lemma CanceledLosesItsClaimExactlyWhen(b: seq<Tables>, actions: seq<Action>, k: nat, p: OpId)
    requires Run(b, actions) && k < |actions| && p in b[k].ops && !Adrift(b[k], p)
    ensures Adrift(b[k + 1], p) <==> SetsAdrift(b[k], actions[k], p)
  {
    RunKeepsInv(b, actions, k);
    assert b[k + 1] == Apply(b[k], actions[k]);
    GoesAdrift(b[k], actions[k], p);
  }

  /** What sets a cancelled operation adrift. */
  ghost predicate SetsAdrift(t: Tables, a: Action, p: OpId)
    requires p in t.ops
  {
    match a
    case Canceling(o, _, _) => o == p && t.ops[p].state == AwaitingInput
    case Crash => t.ops[p].state == Canceled
    case Finishing(o, f, _) => o == p && t.ops[p].state == Canceled && MayLand(t, t.ops[p].instance, f.state)
    case _ => false
  }

  lemma GoesAdrift(t: Tables, a: Action, p: OpId)
    requires p in t.ops && ClaimFits(t.ops[p]) && !Adrift(t, p)
    ensures Adrift(Apply(t, a), p) <==> SetsAdrift(t, a, p)
  {
    match a
    case Submitting(r, nowMs) =>
    case Finishing(_, _, _) => FinishingRewrites(t, a, p);
    case Canceling(_, _, _) =>
    case Crash =>
    case _ => SettledStays(t, a, p);
  }

  lemma SettledStays(t: Tables, a: Action, p: OpId)
    requires p in t.ops && ClaimFits(t.ops[p])
    requires !a.Submitting? && !a.Finishing? && !a.Canceling? && !a.Crash?
    ensures p in Apply(t, a).ops
    ensures Apply(t, a).ops[p].state == Canceled <==> t.ops[p].state == Canceled
    ensures t.ops[p].state == Canceled ==> Apply(t, a).ops[p].active == t.ops[p].active
  {
  }

  lemma Extend(b: seq<Tables>, actions: seq<Action>, a: Action) returns (b': seq<Tables>, actions': seq<Action>)
    requires Run(b, actions)
    ensures Run(b', actions') && actions' == actions + [a] && b' == b + [Apply(b[|b| - 1], a)]
  {
    b', actions' := b + [Apply(b[|b| - 1], a)], actions + [a];
  }

  /** An instance has been created. */
  lemma CreatedInstance() returns (b: seq<Tables>, actions: seq<Action>, create: Op, row: Instance)
    ensures Run(b, actions)
    ensures b[|b| - 1] == Tables(map["i" := row], map["create" := create])
    ensures create.state == Done && !create.active && create.key == "k1" && create.instance == "i" && row.state == Created
  {
    var made := Final(Created, None, None, true, "", Succeeded);
    b, actions := [Tables(map[], map[])], [];
    b, actions := Extend(b, actions, Submitting(Request("create", Create, "i", "k1", "", 1, Some("i"), true, None), 1));
    b, actions := Extend(b, actions, Finishing("create", made, 2));
    create, row := b[|b| - 1].ops["create"], b[|b| - 1].instances["i"];
  }

  /** A start of it is running. */
  lemma StartedInstance() returns (b: seq<Tables>, actions: seq<Action>, start: Op, create: Op, row: Instance)
    ensures Run(b, actions)
    ensures b[|b| - 1] == Tables(map["i" := row], map["create" := create, "start" := start])
    ensures start.instance == "i" && start.state == InProgress && start.active && start.key == "k2"
    ensures create.state == Done && !create.active && create.key == "k1" && create.instance == "i" && row.state == Starting
  {
    b, actions, create, row := CreatedInstance();
    b, actions := Extend(b, actions, Submitting(Request("start", Start, "i", "k2", "", 3, None, true, None), 3));
    row := b[|b| - 1].instances["i"];
    b, actions := Extend(b, actions, Stepping("start", "boot"));
    start := b[|b| - 1].ops["start"];
  }

  /** It is parked on input and then cancelled: the instance is left STARTING, unclaimed. */
  lemma ParkedThenCanceled() returns (b: seq<Tables>, actions: seq<Action>, start: Op, create: Op, row: Instance)
    ensures Run(b, actions)
    ensures b[|b| - 1] == Tables(map["i" := row], map["create" := create, "start" := start])
    ensures start.instance == "i" && start.state == Canceled && !start.active && start.key == "k2"
    ensures create.state == Done && !create.active && create.key == "k1" && create.instance == "i" && row.state == Starting
  {
    b, actions, start, create, row := StartedInstance();
    b, actions := Extend(b, actions, Awaiting("start", "which?"));
    b, actions := Extend(b, actions, Canceling("start", "never mind", 6));
    start := b[|b| - 1].ops["start"];
  }

  /** The first way leaves an executor that can still report: a destroy takes the freed claim,
      and then the start's executor reports a failure over it.  This is a run of the journal's
      own calls; at present only the repository's tests park an operation. */
  lemma CanceledWaitMovesUnderAnother() returns (b: seq<Tables>, actions: seq<Action>, f: Final, n: nat)
    ensures Run(b, actions) && n == |actions| - 1 && actions[n] == Finishing("start", f, 8)
    ensures "destroy" in b[n].ops && b[n].ops["destroy"].active && b[n].ops["destroy"].instance == "i"
    ensures "i" in b[n].instances && b[n].instances["i"].state == Destroying
    ensures "i" in b[n + 1].instances && b[n + 1].instances["i"].state == Failed
  {
    f := Final(Failed, None, None, true, "", FailedWith(1, "boom"));
    b, actions := DestroyTakesTheClaim();
    n := |actions|;
    b, actions := Extend(b, actions, Finishing("start", f, 8));
  }

  lemma DestroyTakesTheClaim() returns (b: seq<Tables>, actions: seq<Action>)
    ensures Run(b, actions)
    ensures var t := b[|b| - 1];
            && "destroy" in t.ops && t.ops["destroy"].active && t.ops["destroy"].instance == "i"
            && "start" in t.ops && t.ops["start"].state == Canceled && t.ops["start"].instance == "i"
            && "i" in t.instances && t.instances["i"].state == Destroying
  {
    var start, create, row;
    b, actions, start, create, row := ParkedThenCanceled();
    b, actions := Extend(b, actions, Submitting(Request("destroy", Destroy, "i", "k3", "", 7, None, true, None), 7));
  }

  /** The start has succeeded, and a snapshot of the running instance is cancelled mid-way. */
  lemma SnapshotCanceled() returns (b: seq<Tables>, actions: seq<Action>, snap: Op)
    ensures Run(b, actions)
    ensures "snap" in b[|b| - 1].ops && b[|b| - 1].ops["snap"] == snap
    ensures snap.state == Canceled && snap.active && !snap.froze
  {
    var start, create, row;
    b, actions, start, create, row := StartedInstance();
    b, actions := Extend(b, actions, Finishing("start", Final(Running, None, None, false, "", Succeeded), 4));
    RunningUnclaimed(b[|b| - 2], b[|b| - 1], start, create, row);
    b, actions := SnapshotOf(b, actions);
    b, actions := Extend(b, actions, Canceling("snap", "never mind", 6));
    snap := b[|b| - 1].ops["snap"];
  }

  ghost predicate Unclaimed(t: Tables) {
    forall o :: o in t.ops ==> !t.ops[o].active && t.ops[o].key != "k3" && o != "snap"
  }

  lemma RunningUnclaimed(t: Tables, t': Tables, start: Op, create: Op, row: Instance)
    requires t == Tables(map["i" := row], map["create" := create, "start" := start])
    requires start.instance == "i" && start.state == InProgress && start.key == "k2" && !create.active && create.key == "k1"
    requires t' == Apply(t, Finishing("start", Final(Running, None, None, false, "", Succeeded), 4))
    ensures "i" in t'.instances && t'.instances["i"].state == Running && Unclaimed(t')
  {
  }

  lemma SnapshotOf(b: seq<Tables>, actions: seq<Action>) returns (b': seq<Tables>, actions': seq<Action>)
    requires Run(b, actions) && Unclaimed(b[|b| - 1])
    requires "i" in b[|b| - 1].instances && b[|b| - 1].instances["i"].state == Running
    ensures Run(b', actions') && "snap" in b'[|b'| - 1].ops
    ensures b'[|b'| - 1].ops["snap"].state == InProgress && b'[|b'| - 1].ops["snap"].active
    ensures !b'[|b'| - 1].ops["snap"].froze
  {
    var r := Request("snap", CreateSnapshot, "i", "k3", "", 5, None, true, None);
    b', actions' := Extend(b, actions, Submitting(r, 5));
    assert Verdict(b[|b| - 1], r, 5).Journaled?;
    b', actions' := Extend(b', actions', Stepping("snap", "hook.pre_snapshot"));
  }

  /** The executor goes on to freeze the workload and says so: a settled report changes. */
  lemma FreezeAfterCancel() returns (b: seq<Tables>, actions: seq<Action>, n: nat)
    ensures Run(b, actions) && n == |actions| - 1
    ensures "snap" in b[n].ops && Settled(b[n].ops["snap"].state) && "snap" in b[n + 1].ops
    ensures !b[n].ops["snap"].froze && b[n + 1].ops["snap"].froze
  {
    var snap;
    b, actions, snap := SnapshotCanceled();
    n := |actions|;
    b, actions := Extend(b, actions, NotingFroze("snap"));
  }

  // ---- keys ------------------------------------------------------------------

  /** A key once used names the same operation for ever, and every later submission under
      it is a replay of that operation which leaves the journal as it was. */
  lemma KeyNamesOneOperationForEver(b: seq<Tables>, actions: seq<Action>, i: nat, j: nat, o: OpId, r: Request, nowMs: int)
    requires Run(b, actions) && i <= j < |b| && o in b[i].ops && b[i].ops[o].key == r.key
    ensures forall p :: p in b[j].ops && b[j].ops[p].key == r.key <==> p == o
    ensures o in b[j].ops && Verdict(b[j], r, nowMs) == Replay(b[j].ops[o]) && Submit(b[j], r, nowMs) == b[j]
  {
    SettledIsFinal(b, actions, i, j, o);
    RunKeepsInv(b, actions, j);
    assert KeyUsed(b[j], r.key);
  }

  // ---- deadlines -------------------------------------------------------------

  /** A submission clears the deadline it claims if and only if it journals its operation;
      and it does neither unless the row still carries the very deadline that was observed. */
  lemma DeadlineAndOperationAreOneWrite(t: Tables, r: Request, nowMs: int)
    requires r.claim.Some? && r.spec.None? && r.instance in t.instances
    ensures var row, row' := t.instances[r.instance], Submit(t, r, nowMs).instances[r.instance];
            var journaled := r.opId !in t.ops && r.opId in Submit(t, r, nowMs).ops;
            && (journaled <==> Verdict(t, r, nowMs).Journaled?)
            && (journaled ==> Column(row, r.claim.value) == Some(r.claim.value.observedMs) &&
                              Column(row', r.claim.value) == None &&
                              r.claim.value.observedMs <= nowMs && Submit(t, r, nowMs).ops[r.opId] == NewOp(r))
            && (!journaled ==> Submit(t, r, nowMs) == t)
  {
  }

  /** The submission journals an operation whose claim names exactly this deadline. */
  ghost predicate ClaimsAway(t: Tables, a: Action, t': Tables, i: Id, claim: Claim) {
    && a.Submitting? && a.request.claim == Some(claim) && a.request.instance == i
    && a.request.opId !in t.ops && a.request.opId in t'.ops
    && i in t.instances && Column(t.instances[i], claim) == Some(claim.observedMs)
    && i in t'.instances && Column(t'.instances[i], claim) == None
  }

  /** Over every run, apart from an explicit re-arm and the standalone wake claim: a wake
      deadline moves only by a submission that claims exactly it; a TTL moves only by such a
      submission or by a finalize of its instance, which puts its own in place of whatever was
      armed meanwhile. */
  lemma DeadlinesMoveOnlyBy(b: seq<Tables>, actions: seq<Action>, k: nat, i: Id)
    requires Run(b, actions) && k < |actions| && i in b[k].instances
    requires !actions[k].Deadline? && !actions[k].TakeWake?
    ensures i in b[k + 1].instances
    ensures b[k].instances[i].wakeMs != b[k + 1].instances[i].wakeMs ==>
              exists at :: ClaimsAway(b[k], actions[k], b[k + 1], i, Wake(at))
    ensures b[k].instances[i].ttlMs != b[k + 1].instances[i].ttlMs ==>
              || (exists at :: ClaimsAway(b[k], actions[k], b[k + 1], i, TtlExpiry(at)))
              || (&& actions[k].Finishing? && actions[k].op in b[k].ops && b[k].ops[actions[k].op].instance == i
                  && FinishVerdict(b[k], actions[k].op, i, actions[k].final).Finalized?
                  && b[k + 1].instances[i].ttlMs == actions[k].final.ttlMs)
  {
    var t, a, t' := b[k], actions[k], b[k + 1];
    assert t' == Apply(t, a);
    if a.Submitting? && Verdict(t, a.request, a.nowMs).Journaled? && a.request.claim.Some? {
      var claim := a.request.claim.value;
      assert a.request.instance == i && a.request.spec.None? ==> ClaimsAway(t, a, t', i, claim);
      assert claim == Wake(claim.observedMs) || claim == TtlExpiry(claim.observedMs);
    }
  }
}
