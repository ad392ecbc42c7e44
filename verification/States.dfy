/** The two transition tables (crates/barista-node-agent/src/state_machine.rs) and the
    operation kinds that move along them (ops.rs). */
module States {
  import opened Prelude

  datatype InstanceState =
    | Unspecified | Creating | Created | Starting | Running | Checkpointing | Pausing | Paused
    | Resuming | Stopping | Stopped | Destroying | Destroyed | Failed

  predicate IsTransitional(s: InstanceState) {
    s in {Creating, Starting, Checkpointing, Pausing, Resuming, Stopping, Destroying}
  }

  predicate IsTerminal(s: InstanceState) {
    s == Destroyed || s == Failed
  }

  predicate CanTransition(from: InstanceState, to: InstanceState) {
    if to == Destroying || to == Destroyed then from != Destroyed
    else if to == Failed then IsTransitional(from)
    else (from, to) in {
      (Creating, Created), (Created, Starting), (Starting, Running), (Running, Checkpointing),
      (Checkpointing, Running), (Running, Pausing), (Pausing, Paused), (Paused, Resuming),
      (Resuming, Running), (Running, Stopping), (Stopping, Stopped), (Stopped, Starting)}
  }

  datatype OpState = NoOpState | Queued | InProgress | AwaitingInput | Done | OpFailed | Canceled

  predicate InFlight(s: OpState) {
    s == Queued || s == InProgress || s == AwaitingInput
  }

  predicate Settled(s: OpState) {
    s == Done || s == OpFailed || s == Canceled
  }

  predicate OpCanTransition(from: OpState, to: OpState) {
    from != NoOpState && to != NoOpState && !Settled(from) &&
    (Settled(to) || (from, to) in {(Queued, InProgress), (InProgress, AwaitingInput), (AwaitingInput, InProgress)})
  }

  datatype OpKind = Create | Start | Stop | Pause | Resume | CreateSnapshot | DeleteSnapshot | Destroy | Fork

  /** The state recorded while an operation of this kind executes. */
  function Transitional(kind: OpKind): InstanceState {
    match kind
    case Create => Creating
    case Start => Starting
    case Stop => Stopping
    case Pause => Pausing
    case Resume => Resuming
    case CreateSnapshot => Checkpointing
    case DeleteSnapshot => Unspecified
    case Destroy => Destroying
    case Fork => Creating
  }

  /** The state to record given where the operation found the instance, or none when it is
      illegal from there.  Two verbs can be legal without moving anything. */
  function Plan(kind: OpKind, from: InstanceState): (to: Option<InstanceState>) {
    if kind == DeleteSnapshot then Some(from)
    else if kind == CreateSnapshot && from == Paused then Some(Paused)
    else if CanTransition(from, Transitional(kind)) then Some(Transitional(kind))
    else None
  }

  /** A planned move is an edge of the table or no move at all. */
  lemma PlansAreLegal(kind: OpKind, from: InstanceState)
    ensures Plan(kind, from).Some? ==>
              Plan(kind, from).value == from || CanTransition(from, Plan(kind, from).value)
  {
  }

  // ---- what the tables promise -----------------------------------------------

  /** Where each state can go, state by state. */
  function Successors(s: InstanceState): set<InstanceState> {
    match s
    case Unspecified => {Destroying, Destroyed}
    case Creating => {Created, Failed, Destroying, Destroyed}
    case Created => {Starting, Destroying, Destroyed}
    case Starting => {Running, Failed, Destroying, Destroyed}
    case Running => {Checkpointing, Pausing, Stopping, Destroying, Destroyed}
    case Checkpointing => {Running, Failed, Destroying, Destroyed}
    case Pausing => {Paused, Failed, Destroying, Destroyed}
    case Paused => {Resuming, Destroying, Destroyed}
    case Resuming => {Running, Failed, Destroying, Destroyed}
    case Stopping => {Stopped, Failed, Destroying, Destroyed}
    case Stopped => {Starting, Destroying, Destroyed}
    case Destroying => {Failed, Destroying, Destroyed}
    case Destroyed => {}
    case Failed => {Destroying, Destroyed}
  }

  /** The table, state by state. */
  lemma TableByState(s: InstanceState, t: InstanceState)
    ensures CanTransition(s, t) <==> t in Successors(s)
  {
  }

  /** Nothing leaves DESTROYED and everything else can be destroyed; exactly the transitional
      states can fail; DESTROYING alone may repeat; and a state is terminal exactly if it is
      not transitional, is specified, and leads nowhere but to destruction. */
  lemma TableKeepsItsPromises(s: InstanceState)
    ensures CanTransition(s, Destroying) <==> s != Destroyed
    ensures CanTransition(s, Failed) <==> IsTransitional(s)
    ensures CanTransition(s, s) <==> s == Destroying
    ensures IsTerminal(s) <==>
              s != Unspecified && !IsTransitional(s) && forall t :: CanTransition(s, t) ==> t == Destroying || t == Destroyed
  {
    match s
    case Created => assert CanTransition(s, Starting);
    case Running => assert CanTransition(s, Pausing);
    case Paused => assert CanTransition(s, Resuming);
    case Stopped => assert CanTransition(s, Starting);
    case _ =>
  }

  /** A queued operation starts, a running one parks, a parked one picks up, any of the three
      settles, and nothing leaves a settled one. */
  lemma OpTableKeepsItsPromises(s: OpState, t: OpState)
    ensures OpCanTransition(s, t) <==>
              match s
              case Queued => t in {InProgress, Done, OpFailed, Canceled}
              case InProgress => t in {AwaitingInput, Done, OpFailed, Canceled}
              case AwaitingInput => t in {InProgress, Done, OpFailed, Canceled}
              case _ => false
    ensures s != NoOpState ==> (InFlight(s) <==> !Settled(s))
    ensures OpCanTransition(s, t) ==> InFlight(s)
  {
  }

  /** The state an operation is recorded under, verb by verb. */
  lemma PlansByKind(kind: OpKind, from: InstanceState)
    ensures Plan(kind, from) ==
            match kind
            case DeleteSnapshot => Some(from)
            case CreateSnapshot =>
              if from == Running then Some(Checkpointing) else if from == Paused then Some(Paused) else None
            case Start => if from in {Created, Stopped} then Some(Starting) else None
            case Stop => if from == Running then Some(Stopping) else None
            case Pause => if from == Running then Some(Pausing) else None
            case Resume => if from == Paused then Some(Resuming) else None
            case Destroy => if from != Destroyed then Some(Destroying) else None
            case Create => None
            case Fork => None
  {
  }
}
