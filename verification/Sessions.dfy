/**
 Which instance realises a session (crates/barista-node-agent/src/fleet_phase.rs
 `realising_instance`, `materialise` and the record loop of `pass`; fleet.rs `intent_for`).

 One held name whose desired record never changes.  A pass's decision about the record is
 one step; in between, instances move as operations, crash recovery and the vanished-sandbox
 sweep move them.
 */
module Sessions {
  import opened Prelude
  import opened States

  type Id = string

  datatype Policy = Coldboot | Hold
  datatype Intent = AlreadyRunning | Materialise(coldBoot: bool) | HoldWithoutMaterialising

  function IntentFor(policy: Policy, tookOver: bool, realised: bool): Intent {
    if realised then AlreadyRunning
    else if !tookOver then Materialise(false)
    else if policy == Coldboot then Materialise(true)
    else HoldWithoutMaterialising
  }

  datatype Realising = Record | FromLease | Fresh

  predicate Terminal(s: Option<InstanceState>) {
    s.Some? && IsTerminal(s.value)
  }

  /** The record wins while its instance can run; then the lease's memory; then a new one. */
  function RealisingInstance(record: Option<InstanceState>, leaseNamesAnother: bool, lease: Option<InstanceState>)
    : (r: Realising)
  {
    if !Terminal(record) then Record
    else if leaseNamesAnother && !Terminal(lease) then FromLease
    else Fresh
  }

  /** The operation `materialise` submits for an instance in this state, if any. */
  function Advance(state: Option<InstanceState>, coldBoot: bool): (kind: Option<OpKind>) {
    if state.None? then Some(Create)
    else if state.value == Paused && !coldBoot then Some(Resume)
    else if state.value in {Created, Stopped, Paused} then Some(Start)
    else None
  }

  /** `substitutions` lists each recorded substitution as the terminal instance it replaced
      and how many write-backs preceded it; a write-back is a pass putting the record's id
      back on the lease after the record's instance had been substituted for. */
  datatype Session = Session(
    journal: map<Id, InstanceState>, lease: Id, named: set<Id>,
    substitutions: seq<(Id, nat)>, writeBacks: nat, held: bool)
  {
    function StateOf(id: Id): Option<InstanceState> {
      if id == "" || id !in journal then None else Some(journal[id])
    }

    predicate Replaced(id: Id) {
      exists i :: 0 <= i < |substitutions| && substitutions[i].0 == id
    }
  }

  /** The answer to recording an instance on the lease. */
  datatype Naming = Stored | Fenced | NoAnswer

  datatype Event =
    | Pass(policy: Policy, tookOver: bool, admitted: bool, minted: Id, naming: Naming)
    | Appear(id: Id)
    | Move(id: Id, to: InstanceState)

  function LeaseNamesAnother(s: Session, record: Id): bool {
    s.lease != "" && s.lease != record
  }

  function Decide(s: Session, record: Id): Realising {
    RealisingInstance(s.StateOf(record), LeaseNamesAnother(s, record), s.StateOf(s.lease))
  }

  function Target(s: Session, record: Id, minted: Id): Id {
    match Decide(s, record)
    case Record => record
    case FromLease => s.lease
    case Fresh => minted
  }

  function Wants(s: Session, record: Id, e: Event): Intent
    requires e.Pass?
  {
    var target := Target(s, record, e.minted);
    IntentFor(e.policy, e.tookOver, Realised(s.StateOf(target)))
  }

  /** The pass goes on to materialise: the lease names the target, or was just made to. */
  predicate Materialises(s: Session, record: Id, e: Event) {
    e.Pass? && s.held && e.admitted && Wants(s, record, e).Materialise? &&
    (s.lease == Target(s, record, e.minted) || e.naming.Stored?)
  }

  predicate Renames(s: Session, record: Id, e: Event) {
    e.Pass? && s.held && e.admitted && Wants(s, record, e).Materialise? && s.lease != Target(s, record, e.minted)
  }

  /** A substitution replaces the lease's instance if that is a terminal one of its own, and
      the record's otherwise. */
  function Dead(s: Session, record: Id): Id {
    if LeaseNamesAnother(s, record) && Terminal(s.StateOf(s.lease)) then s.lease else record
  }

  predicate Enabled(s: Session, record: Id, e: Event) {
    match e
    case Pass(_, _, _, minted, _) => minted != "" && minted != record && minted !in s.named && minted !in s.journal
    case Appear(id) => id != "" && id !in s.journal
    case Move(id, to) =>
      id in s.journal && (CanTransition(s.journal[id], to) || (s.journal[id] == Running && to == Failed))
  }

  function Next(s: Session, record: Id, e: Event): Session
    requires Enabled(s, record, e)
  {
    match e
    case Appear(id) => s.(journal := s.journal[id := Creating])
    case Move(id, to) => s.(journal := s.journal[id := to])
    case Pass(_, _, _, minted, naming) =>
      if !Renames(s, record, e) || naming.NoAnswer? then s
      else if naming.Fenced? then s.(held := false)
      else
        var target := Target(s, record, minted);
        s.(lease := target, named := s.named + {target},
           substitutions := if Decide(s, record).Fresh? then s.substitutions + [(Dead(s, record), s.writeBacks)]
                            else s.substitutions,
           writeBacks := if Decide(s, record).Record? && s.Replaced(record) then s.writeBacks + 1 else s.writeBacks)
  }

  /** A run starts when the name is acquired, with whatever journal and lease instance it
      finds. */
  ghost predicate Run(b: seq<Session>, events: seq<Event>, record: Id) {
    && |b| == |events| + 1 && record != ""
    && b[0].substitutions == [] && b[0].writeBacks == 0 && b[0].lease in b[0].named
    && forall i :: 0 <= i < |events| ==> Enabled(b[i], record, events[i]) && b[i + 1] == Next(b[i], record, events[i])
  }

  /** `materialise` is never handed a terminal instance: it submits something, or the
      instance is in a state that moves on by itself. */
  lemma NeverMaterialisesTheTerminal(b: seq<Session>, events: seq<Event>, record: Id, i: nat)
    requires Run(b, events, record) && i < |events| && Materialises(b[i], record, events[i])
    ensures var target := b[i].StateOf(Target(b[i], record, events[i].minted));
            && !Terminal(target)
            && (Advance(target, Wants(b[i], record, events[i]).coldBoot).None? ==>
                  IsTransitional(target.value) || target.value == Unspecified)
  {
    assert Enabled(b[i], record, events[i]);
  }

  /** Once recording an instance is refused the name is lost: over every later pass of the run
      nothing is materialised, recorded or substituted. */
  lemma {:induction false} FencedIsTheLast(b: seq<Session>, events: seq<Event>, record: Id, i: nat, j: nat)
    requires Run(b, events, record) && i < j < |b| && Renames(b[i], record, events[i]) && events[i].naming.Fenced?
    ensures !b[j].held && b[j].lease == b[i].lease && b[j].substitutions == b[i].substitutions
    ensures j < |events| ==> !Materialises(b[j], record, events[j])
    decreases j
  {
    assert Enabled(b[j - 1], record, events[j - 1]) && b[j] == Next(b[j - 1], record, events[j - 1]);
    if i < j - 1 {
      FencedIsTheLast(b, events, record, i, j - 1);
    }
  }

  /** What `materialise` submits, state by state: a create for none, a start for a created or
      stopped one, for a paused one a resume unless it is a cold boot, and nothing otherwise. */
  lemma AdvanceByState(state: Option<InstanceState>, coldBoot: bool)
    ensures state == None ==> Advance(state, coldBoot) == Some(Create)
    ensures state == Some(Created) || state == Some(Stopped) ==> Advance(state, coldBoot) == Some(Start)
    ensures state == Some(Paused) ==> Advance(state, coldBoot) == Some(if coldBoot then Start else Resume)
    ensures state.Some? && state.value !in {Created, Stopped, Paused} ==> Advance(state, coldBoot) == None
  {
  }

  /** Over every run the instance a pass goes for is the record's while that can still run; else
      the one the lease remembers, if that is another and can; else the one just minted. */
  lemma GoesFor(b: seq<Session>, events: seq<Event>, record: Id, i: nat)
    requires Run(b, events, record) && i < |events| && events[i].Pass?
    ensures var s, target := b[i], Target(b[i], record, events[i].minted);
            var gone := record in s.journal && (s.journal[record] == Destroyed || s.journal[record] == Failed);
            var remembered := s.lease != "" && s.lease != record &&
                              !(s.lease in s.journal && (s.journal[s.lease] == Destroyed || s.journal[s.lease] == Failed));
            target == if !gone then record else if remembered then s.lease else events[i].minted
    ensures events[i].naming.Stored? && b[i + 1].lease != b[i].lease ==>
              b[i + 1].lease == Target(b[i], record, events[i].minted)
  {
    assert Enabled(b[i], record, events[i]) && b[i + 1] == Next(b[i], record, events[i]);
  }

  predicate Realised(state: Option<InstanceState>) {
    state == Some(Running) || state == Some(Paused)
  }

  /** Over every run a pass goes on to materialise if and only if the name is held and named,
      the record admitted, its instance neither running nor paused, and the session is not one
      to be held after a takeover. */
  lemma MaterialisesExactlyWhen(b: seq<Session>, events: seq<Event>, record: Id, i: nat)
    requires Run(b, events, record) && i < |events| && events[i].Pass?
    ensures var e, target := events[i], Target(b[i], record, events[i].minted);
            Materialises(b[i], record, e) <==>
              && b[i].held && e.admitted && (b[i].lease == target || e.naming.Stored?)
              && !Realised(b[i].StateOf(target)) && !(e.tookOver && e.policy == Hold)
  {
    assert Enabled(b[i], record, events[i]);
  }

  /** `materialise` promises that a returning owner resumes its own snapshot, and that a cold
      boot discards it.  Over every run, a record's decision being one step, neither happens:
      a paused instance never gets there, so nothing is resumed and the cold boot changes
      nothing. */
  lemma ResumeArmIsNeverReached(b: seq<Session>, events: seq<Event>, record: Id, i: nat)
    requires Run(b, events, record) && i < |events| && events[i].Pass?
    ensures var state := b[i].StateOf(Target(b[i], record, events[i].minted));
            && (state == Some(Paused) ==> !Materialises(b[i], record, events[i]))
            && (Materialises(b[i], record, events[i]) ==>
                  Advance(state, true) == Advance(state, false) != Some(Resume))
  {
    MaterialisesExactlyWhen(b, events, record, i);
  }

  /** The source reads the instance twice: to decide, and again in `materialise`. */
  function Submitted(policy: Policy, tookOver: bool, first: Option<InstanceState>, second: Option<InstanceState>)
    : Option<OpKind>
  {
    var intent := IntentFor(policy, tookOver, Realised(first));
    if intent.Materialise? then Advance(second, intent.coldBoot) else None
  }

  /** The exact condition: a resume is submitted if and only if the owner did not change and
      the instance came to be paused between the two reads.  What is resumed is then never a
      snapshot the owner came back to, but one just taken. */
  lemma ResumesExactlyWhenPausedInBetween(
    policy: Policy, tookOver: bool, first: Option<InstanceState>, second: Option<InstanceState>)
    ensures Submitted(policy, tookOver, first, second) == Some(Resume) <==>
              !tookOver && second == Some(Paused) && !Realised(first)
    ensures Submitted(policy, tookOver, first, second) == Some(Resume) ==> first != second
    ensures CanTransition(Pausing, Paused) && Submitted(policy, false, Some(Pausing), Some(Paused)) == Some(Resume)
  {
  }

  ghost predicate Inv(s: Session, record: Id) {
    && s.lease in s.named
    && (forall i :: 0 <= i < |s.substitutions| ==>
          s.substitutions[i].1 <= s.writeBacks && (s.substitutions[i].0 == record || s.substitutions[i].0 in s.named))
    && (forall i, j :: 0 <= i < j < |s.substitutions| ==> s.substitutions[i] != s.substitutions[j])
    && (forall i, j :: 0 <= i < j < |s.substitutions| && s.substitutions[i].0 == s.substitutions[j].0 ==>
          s.substitutions[i].0 == record)
    && (s.lease != record ==> forall i :: 0 <= i < |s.substitutions| ==> s.substitutions[i].0 != s.lease)
    && (s.lease == record || s.lease == "" ==>
          forall i :: 0 <= i < |s.substitutions| ==> s.substitutions[i] != (record, s.writeBacks))
  }

  /** A substitution after a write-back comes after one for the record's instance. */
  ghost predicate Traced(s: Session, record: Id) {
    && (s.writeBacks > 0 ==> s.Replaced(record))
    && (forall i :: 0 <= i < |s.substitutions| && s.substitutions[i].1 > 0 ==> ReplacedBefore(s.substitutions, i, record))
  }

  ghost predicate ReplacedBefore(substitutions: seq<(Id, nat)>, n: nat, id: Id)
    requires n <= |substitutions|
  {
    exists j :: 0 <= j < n && substitutions[j].0 == id
  }

  lemma ReplacedStays(substitutions: seq<(Id, nat)>, more: seq<(Id, nat)>, n: nat, id: Id)
    requires n <= |substitutions| && ReplacedBefore(substitutions, n, id)
    ensures ReplacedBefore(substitutions + more, n, id)
  {
    var j :| 0 <= j < n && substitutions[j].0 == id;
    assert (substitutions + more)[j].0 == id;
  }

  lemma NextKeepsTraced(s: Session, record: Id, e: Event)
    requires Traced(s, record) && Enabled(s, record, e)
    ensures Traced(Next(s, record, e), record)
  {
    var t := Next(s, record, e);
    var n := |s.substitutions|;
    if |t.substitutions| > n {
      var more := [t.substitutions[n]];
      assert t.substitutions == s.substitutions + more && t.substitutions[n].1 == s.writeBacks == t.writeBacks;
      forall i | 0 <= i <= n && t.substitutions[i].1 > 0
        ensures ReplacedBefore(t.substitutions, i, record)
      {
        assert ReplacedBefore(s.substitutions, i, record);
        ReplacedStays(s.substitutions, more, i, record);
      }
      if s.writeBacks > 0 {
        var j :| 0 <= j < n && s.substitutions[j].0 == record;
        assert t.substitutions[j].0 == record;
      }
    }
  }

  lemma {:induction false} RunIsTraced(b: seq<Session>, events: seq<Event>, record: Id, i: nat)
    requires Run(b, events, record) && i < |b|
    ensures Traced(b[i], record)
  {
    if i > 0 {
      RunIsTraced(b, events, record, i - 1);
      assert Enabled(b[i - 1], record, events[i - 1]);
      NextKeepsTraced(b[i - 1], record, events[i - 1]);
    }
  }

  lemma SubstitutingKeepsInv(s: Session, record: Id, minted: Id)
    requires Inv(s, record) && record != "" && Decide(s, record).Fresh?
    requires minted != "" && minted != record && minted !in s.named && minted !in s.journal
    ensures Inv(s.(lease := minted, named := s.named + {minted},
                   substitutions := s.substitutions + [(Dead(s, record), s.writeBacks)]), record)
  {
    var n := |s.substitutions|;
    var added := (Dead(s, record), s.writeBacks);
    forall i | 0 <= i < n
      ensures s.substitutions[i] != added && (s.substitutions[i].0 == added.0 ==> added.0 == record)
    {
    }
  }

  lemma WritingBackKeepsInv(s: Session, record: Id)
    requires Inv(s, record) && s.lease != record
    ensures Inv(s.(lease := record, named := s.named + {record},
                   writeBacks := if s.Replaced(record) then s.writeBacks + 1 else s.writeBacks), record)
  {
  }

  lemma NextKeepsInv(s: Session, record: Id, e: Event)
    requires Inv(s, record) && record != "" && Enabled(s, record, e)
    ensures Inv(Next(s, record, e), record)
  {
    if Renames(s, record, e) && e.naming.Stored? {
      if Decide(s, record).Fresh? {
        SubstitutingKeepsInv(s, record, e.minted);
      } else {
        WritingBackKeepsInv(s, record);
      }
    }
  }

  lemma {:induction false} RunKeepsInv(b: seq<Session>, events: seq<Event>, record: Id, i: nat)
    requires Run(b, events, record) && i < |b|
    ensures Inv(b[i], record)
  {
    if i > 0 {
      RunKeepsInv(b, events, record, i - 1);
      assert Enabled(b[i - 1], record, events[i - 1]);
      NextKeepsInv(b[i - 1], record, events[i - 1]);
    }
  }

  /** Over every run: no instance is substituted for twice, except that the record's own
      instance may be once more after each write-back. */
  lemma SubstitutionsAreOncePerTerminalInstance(b: seq<Session>, events: seq<Event>, record: Id, k: nat, i: nat, j: nat)
    requires Run(b, events, record) && k < |b| && i < j < |b[k].substitutions|
    requires b[k].substitutions[i].0 == b[k].substitutions[j].0
    ensures b[k].substitutions[i].0 == record
    ensures b[k].substitutions[i].1 != b[k].substitutions[j].1 && b[k].writeBacks > 0
  {
    RunKeepsInv(b, events, record, k);
  }

  /** What is substituted for is terminal at that moment. */
  lemma OnlyTheTerminalIsReplaced(b: seq<Session>, events: seq<Event>, record: Id, i: nat)
    requires Run(b, events, record) && i < |events|
    requires |b[i + 1].substitutions| > |b[i].substitutions|
    ensures Terminal(b[i].StateOf(b[i + 1].substitutions[|b[i].substitutions|].0))
    ensures !Terminal(b[i + 1].StateOf(b[i + 1].lease))
  {
    assert Enabled(b[i], record, events[i]) && b[i + 1] == Next(b[i], record, events[i]);
  }

  /** Some instance has been substituted for twice. */
  ghost predicate Twice(s: Session) {
    exists i, j :: 0 <= i < j < |s.substitutions| && s.substitutions[i].0 == s.substitutions[j].0
  }

  /** The exact condition over whole runs: some instance is substituted for twice if and only
      if the record's own was substituted for after a write-back. */
  lemma TwiceExactlyAfterAWriteBack(b: seq<Session>, events: seq<Event>, record: Id, k: nat)
    requires Run(b, events, record) && k < |b|
    ensures Twice(b[k]) <==>
              exists i :: 0 <= i < |b[k].substitutions| && b[k].substitutions[i].0 == record && b[k].substitutions[i].1 > 0
  {
    RunKeepsInv(b, events, record, k);
    RunIsTraced(b, events, record, k);
    if Twice(b[k]) {
      TwiceNeedsAWriteBack(b[k], record);
    }
    if i :| 0 <= i < |b[k].substitutions| && b[k].substitutions[i].0 == record && b[k].substitutions[i].1 > 0 {
      assert ReplacedBefore(b[k].substitutions, i, record);
      var j :| 0 <= j < i && b[k].substitutions[j].0 == record;
    }
  }

  lemma TwiceNeedsAWriteBack(s: Session, record: Id)
    requires Inv(s, record) && Twice(s)
    ensures exists i :: 0 <= i < |s.substitutions| && s.substitutions[i].0 == record && s.substitutions[i].1 > 0
  {
    var i, j :| 0 <= i < j < |s.substitutions| && s.substitutions[i].0 == s.substitutions[j].0;
    assert s.substitutions[i] != s.substitutions[j];
    var k := if s.substitutions[i].1 > 0 then i else j;
    assert s.substitutions[k].1 > 0 && s.substitutions[k].0 == record;
  }

  /** The record's instance is never taken out of a terminal state. */
  ghost predicate StaysTerminal(b: seq<Session>, events: seq<Event>, record: Id)
    requires |b| == |events| + 1
  {
    forall i :: 0 <= i < |events| && events[i].Move? && events[i].id == record && Terminal(b[i].StateOf(record)) ==>
                IsTerminal(events[i].to)
  }

  lemma {:induction false} NoWriteBacksWhileTerminal(b: seq<Session>, events: seq<Event>, record: Id, i: nat)
    requires Run(b, events, record) && StaysTerminal(b, events, record) && i < |b|
    ensures b[i].writeBacks == 0
    ensures b[i].substitutions != [] ==> Terminal(b[i].StateOf(record))
  {
    if i > 0 {
      NoWriteBacksWhileTerminal(b, events, record, i - 1);
      assert Enabled(b[i - 1], record, events[i - 1]) && b[i] == Next(b[i - 1], record, events[i - 1]);
    }
  }

  /** So if the record's instance is never taken out of a terminal state, each terminal
      instance is substituted for at most once. */
  lemma OncePerTerminalInstanceWhen(b: seq<Session>, events: seq<Event>, record: Id, k: nat, i: nat, j: nat)
    requires Run(b, events, record) && StaysTerminal(b, events, record) && k < |b|
    requires i < j < |b[k].substitutions|
    ensures b[k].substitutions[i].0 != b[k].substitutions[j].0
  {
    NoWriteBacksWhileTerminal(b, events, record, k);
    if b[k].substitutions[i].0 == b[k].substitutions[j].0 {
      SubstitutionsAreOncePerTerminalInstance(b, events, record, k, i, j);
      assert false;
    }
  }

  lemma Extend(b: seq<Session>, events: seq<Event>, record: Id, e: Event) returns (b': seq<Session>, events': seq<Event>)
    requires Run(b, events, record) && Enabled(b[|b| - 1], record, e)
    ensures Run(b', events', record) && events' == events + [e] && b' == b + [Next(b[|b| - 1], record, e)]
  {
    b', events' := b + [Next(b[|b| - 1], record, e)], events + [e];
  }

  /** The record's instance has failed; a substitute is recorded and built. */
  lemma SubstituteForTheFailed() returns (b: seq<Session>, events: seq<Event>)
    ensures Run(b, events, "r")
    ensures b[|b| - 1] == Session(map["r" := Failed, "f1" := Created], "f1", {"r", "f1"}, [("r", 0)], 0, true)
  {
    b, events := [Session(map["r" := Failed], "r", {"r"}, [], 0, true)], [];
    b, events := Extend(b, events, "r", Pass(Coldboot, false, true, "f1", Stored));
    b, events := Extend(b, events, "r", Appear("f1"));
    b, events := Extend(b, events, "r", Move("f1", Created));
  }

  /** But the table has an edge out of FAILED.  Destroying the failed instance while the
      record names it makes a pass write it back over the live substitute, and then
      substitute for the same instance a second time. */
  lemma DestroyingTheFailedSubstitutesTwice() returns (b: seq<Session>, events: seq<Event>)
    ensures Run(b, events, "r")
    ensures b[|b| - 1].substitutions == [("r", 0), ("r", 1)] && b[|b| - 1].lease == "f2"
    ensures "f1" in b[|b| - 1].journal && !IsTerminal(b[|b| - 1].journal["f1"])
  {
    b, events := SubstituteForTheFailed();
    b, events := Extend(b, events, "r", Move("r", Destroying));
    assert b[|b| - 1].substitutions[0].0 == "r";
    b, events := Extend(b, events, "r", Pass(Coldboot, false, true, "f2", Stored));
    assert b[|b| - 1] == Session(map["r" := Destroying, "f1" := Created], "r", {"r", "f1"}, [("r", 0)], 1, true);
    b, events := Extend(b, events, "r", Move("r", Destroyed));
    b, events := Extend(b, events, "r", Pass(Coldboot, false, true, "f2", Stored));
  }
}
