/**
 One node's lease writers (crates/barista-node-agent/src/fleet.rs, fleet_phase.rs).

 The reconcile pass and the transition stamps run as concurrent tasks.  Every fenced
 write happens under `lease_writes`; what differs is whether the version it is fenced
 by was read inside that lock (renewals, stamps) or before it (recording an instance,
 releasing).  The model interleaves their individual steps with each other and with
 writes by other nodes.
 */
module LeaseWrites {
  import opened Prelude
  import opened Leases

  type Name = string
  type Task = string

  datatype Reply = Accepted(held: Versioned) | Refused | NoReply

  datatype Phase =
    | Idle
    | Early(name: Name, read: Versioned, verb: Verb)
    | Entered
    | Loaded(name: Name, read: Versioned, verb: Verb, underLock: bool)
    | Claiming(name: Name, basis: Option<Versioned>)
    | Answered(name: Name, wrote: Option<Verb>, reply: Reply)
  {
    predicate Inside() {
      Entered? || Loaded? || Claiming? || Answered?
    }
  }

  /** `foreign`: names another node has written since this node's last accepted write.
      `unheard`: names whose last accepted write by this node got no reply. */
  datatype State = State(
    slots: map<Name, Versioned>, held: map<Name, Versioned>,
    lock: Option<Task>, phase: map<Task, Phase>,
    foreign: set<Name>, unheard: set<Name>)
  {
    function Of(t: Task): Phase {
      if t in phase then phase[t] else Idle
    }

    function Slot(name: Name): Option<Versioned> {
      if name in slots then Some(slots[name]) else None
    }

    predicate Untouched(name: Name) {
      name !in foreign && name !in unheard
    }
  }

  const Boot := State(map[], map[], None, map[], {}, {})

  /** What happens to one request: answered, applied with the answer lost, or not applied. */
  datatype Fate = Replies | ReplyLost | Fails

  datatype Event =
    | ReadEarly(task: Task, name: Name, verb: Verb)
    | Enter(task: Task)
    | Load(task: Task, name: Name, verb: Verb)
    | LookUp(task: Task, name: Name)
    | Put(task: Task, lease: Lease, tag: Tag, fate: Fate)
    | Record(task: Task)
    | Quit(task: Task)
    | Foreign(name: Name, theirs: Versioned)

  ghost predicate Enabled(s: State, e: Event, me: Node) {
    match e
    case ReadEarly(t, name, verb) =>
      s.Of(t).Idle? && name in s.held && (verb.SetInstance? || verb.Release?)
    case Enter(t) => s.lock.None? && (s.Of(t).Idle? || s.Of(t).Early?)
    case Load(t, name, verb) => s.Of(t).Entered? && name in s.held && (verb.Renew? || verb.Stamp?)
    case LookUp(t, name) => s.Of(t).Entered? && name !in s.held
    case Put(t, lease, _, _) =>
      var p := s.Of(t);
      if p.Loaded? then lease == Rewrite(p.read.lease, p.verb)
      else p.Claiming? &&
           exists endpoint, ttlMs, nowMs ::
             MayClaim(p.basis, me, nowMs) && lease == Claimed(p.basis, me, endpoint, ttlMs, nowMs)
    case Record(t) => s.Of(t).Answered?
    case Quit(t) => s.Of(t).Entered?
    case Foreign(_, _) => true
  }

  function Condition(p: Phase): PutMode
    requires p.Loaded? || p.Claiming?
  {
    if p.Loaded? then Update(p.read.tag) else ClaimMode(p.basis)
  }

  /** The held map after a reply is recorded.  A refused stamp leaves the entry for the
      next renewal to decide on; a release drops it whether accepted or refused. */
  function Recorded(held: map<Name, Versioned>, name: Name, verb: Option<Verb>, reply: Reply): map<Name, Versioned> {
    match reply
    case NoReply => held
    case Accepted(v) => if verb == Some(Release) then held - {name} else held[name := v]
    case Refused => if verb.None? || verb.value.Stamp? then held else held - {name}
  }

  ghost function Next(s: State, e: Event, me: Node): State
    requires Enabled(s, e, me)
  {
    match e
    case ReadEarly(t, name, verb) => s.(phase := s.phase[t := Early(name, s.held[name], verb)])
    case Enter(t) =>
      var p := s.Of(t);
      s.(lock := Some(t),
         phase := s.phase[t := if p.Early? then Loaded(p.name, p.read, p.verb, false) else Entered])
    case Load(t, name, verb) => s.(phase := s.phase[t := Loaded(name, s.held[name], verb, true)])
    case LookUp(t, name) => s.(phase := s.phase[t := Claiming(name, s.Slot(name))])
    case Put(t, lease, tag, fate) =>
      var p := s.Of(t);
      var v := Versioned(lease, tag);
      var verb := if p.Loaded? then Some(p.verb) else None;
      if fate.Fails? then s.(phase := s.phase[t := Answered(p.name, verb, NoReply)])
      else if !Admits(s.Slot(p.name), Condition(p)) then
        s.(phase := s.phase[t := Answered(p.name, verb, if fate.Replies? then Refused else NoReply)])
      else if fate.Replies? then
        s.(slots := s.slots[p.name := v], phase := s.phase[t := Answered(p.name, verb, Accepted(v))],
           foreign := s.foreign - {p.name}, unheard := s.unheard - {p.name})
      else
        s.(slots := s.slots[p.name := v], phase := s.phase[t := Answered(p.name, verb, NoReply)],
           foreign := s.foreign - {p.name}, unheard := s.unheard + {p.name})
    case Record(t) =>
      var p := s.Of(t);
      s.(held := Recorded(s.held, p.name, p.wrote, p.reply), lock := None, phase := s.phase[t := Idle])
    case Quit(t) => s.(lock := None, phase := s.phase[t := Idle])
    case Foreign(name, v) => s.(slots := s.slots[name := v], foreign := s.foreign + {name})
  }

  ghost predicate Behaviour(b: seq<State>, events: seq<Event>, me: Node) {
    |b| == |events| + 1 && b[0] == Boot &&
    forall i :: 0 <= i < |events| ==> Enabled(b[i], events[i], me) && b[i + 1] == Next(b[i], events[i], me)
  }

  /** The version a name's record should carry if nobody interfered: the one just written
      and not yet recorded, or else the one the held map carries. */
  ghost predicate InStep(s: State, name: Name) {
    if s.lock.Some? && s.Of(s.lock.value).Answered? && s.Of(s.lock.value).name == name &&
       s.Of(s.lock.value).reply.Accepted?
    then s.Slot(name) == Some(s.Of(s.lock.value).reply.held)
    else name in s.held ==> s.Slot(name) == Some(s.held[name])
  }

  ghost predicate Inv(s: State) {
    Locked(s) && forall name :: s.Untouched(name) ==> InStep(s, name)
  }

  /** What the lock guarantees of the task inside it. */
  ghost predicate Locked(s: State) {
    && (forall t :: s.Of(t).Inside() <==> s.lock == Some(t))
    && (s.lock.Some? ==>
          var p := s.Of(s.lock.value);
          p.Loaded? && p.underLock ==> p.name in s.held && s.held[p.name] == p.read)
  }

  lemma NextKeepsLocked(s: State, e: Event, me: Node)
    requires Locked(s) && Enabled(s, e, me)
    ensures Locked(Next(s, e, me))
  {
  }

  lemma PutKeepsInStep(s: State, e: Event, me: Node, name: Name)
    requires Locked(s) && e.Put? && Enabled(s, e, me) && (s.Untouched(name) ==> InStep(s, name))
    ensures Next(s, e, me).Untouched(name) ==> InStep(Next(s, e, me), name)
  {
    assert s.lock == Some(e.task) by {
      assert s.Of(e.task).Inside();
    }
  }

  lemma OtherKeepsInStep(s: State, e: Event, me: Node, name: Name)
    requires Locked(s) && !e.Put? && Enabled(s, e, me) && (s.Untouched(name) ==> InStep(s, name))
    ensures Next(s, e, me).Untouched(name) ==> InStep(Next(s, e, me), name)
  {
  }

  lemma NextKeepsInv(s: State, e: Event, me: Node)
    requires Inv(s) && Enabled(s, e, me)
    ensures Inv(Next(s, e, me))
  {
    NextKeepsLocked(s, e, me);
    var s' := Next(s, e, me);
    forall name | s'.Untouched(name)
      ensures InStep(s', name)
    {
      if e.Put? {
        PutKeepsInStep(s, e, me, name);
      } else {
        OtherKeepsInStep(s, e, me, name);
      }
    }
  }

  lemma {:induction false} BehaviourKeepsInv(b: seq<State>, events: seq<Event>, me: Node, i: nat)
    requires Behaviour(b, events, me) && i < |b|
    ensures Inv(b[i])
  {
    if i > 0 {
      BehaviourKeepsInv(b, events, me, i - 1);
      NextKeepsInv(b[i - 1], events[i - 1], me);
    }
  }

  /** The write at step `i` is answered with a refusal. */
  ghost predicate RefusedAt(b: seq<State>, events: seq<Event>, i: nat)
    requires i < |events| && |b| == |events| + 1
  {
    events[i].Put? && b[i + 1].Of(events[i].task).Answered? && b[i + 1].Of(events[i].task).reply.Refused?
  }

  /** Whatever the interleaving of passes and stamps, a renewal (or stamp) is refused only
      if another node wrote the record after this node's last accepted write, or an accepted
      write of this node's own never got its reply. */
  lemma NoFalseFence(b: seq<State>, events: seq<Event>, me: Node, i: nat)
    requires Behaviour(b, events, me) && i < |events| && RefusedAt(b, events, i)
    requires var p := b[i].Of(events[i].task); p.Loaded? && (p.verb.Renew? || p.verb.Stamp?)
    ensures !b[i].Untouched(b[i].Of(events[i].task).name)
  {
    BehaviourKeepsInv(b, events, me, i);
    VerbsKnowTheirLock(b, events, me, i, events[i].task);
    var p := b[i].Of(events[i].task);
    assert p.Inside();
    assert b[i].Untouched(p.name) ==> InStep(b[i], p.name);
  }

  /** Renewals and stamps read their version inside the lock; the other two before it. */
  lemma {:induction false} VerbsKnowTheirLock(b: seq<State>, events: seq<Event>, me: Node, i: nat, t: Task)
    requires Behaviour(b, events, me) && i < |b|
    ensures KnowsItsLock(b[i].Of(t))
  {
    if i > 0 {
      VerbsKnowTheirLock(b, events, me, i - 1, t);
      assert Enabled(b[i - 1], events[i - 1], me) && b[i] == Next(b[i - 1], events[i - 1], me);
      NextKnowsItsLock(b[i - 1], events[i - 1], me, t);
    }
  }

  ghost predicate KnowsItsLock(p: Phase) {
    && (p.Early? ==> p.verb.SetInstance? || p.verb.Release?)
    && (p.Loaded? ==> (p.underLock <==> p.verb.Renew? || p.verb.Stamp?))
  }

  lemma NextKnowsItsLock(s: State, e: Event, me: Node, t: Task)
    requires Enabled(s, e, me) && KnowsItsLock(s.Of(t))
    ensures KnowsItsLock(Next(s, e, me).Of(t))
  {
  }

  /** What the node holds of a name once an answer is recorded: nothing after a refusal (a
      refused stamp aside, which is left for the next renewal) or a release; the version just
      written after any other acceptance; and what it held before if no answer came. */
  lemma AnswerIsRecorded(b: seq<State>, events: seq<Event>, me: Node, i: nat)
    requires Behaviour(b, events, me) && i < |events| && events[i].Record?
    ensures b[i].Of(events[i].task).Answered?
    ensures var p, before, after := b[i].Of(events[i].task), b[i].held, b[i + 1].held;
            && (forall n :: n != p.name ==> (n in after <==> n in before) && (n in after ==> after[n] == before[n]))
            && (p.reply.Refused? && p.wrote.Some? && !p.wrote.value.Stamp? ==> p.name !in after)
            && (p.reply.Refused? && (p.wrote.None? || p.wrote.value.Stamp?) ==> after == before)
            && (p.reply.Accepted? && p.wrote == Some(Release) ==> p.name !in after)
            && (p.reply.Accepted? && p.wrote != Some(Release) ==> p.name in after && after[p.name] == p.reply.held)
            && (p.reply.NoReply? ==> after == before)
    ensures b[i + 1].lock == None && b[i + 1].slots == b[i].slots
  {
    assert Enabled(b[i], events[i], me) && b[i + 1] == Next(b[i], events[i], me);
  }

  /** Recording an instance, or releasing, on a record nobody else has written: the write
      is refused exactly when the held map no longer carries the version that was read
      before the lock, that is, when this node's own stamp got there first. */
  lemma EarlyReadIsRefusedExactlyWhen(b: seq<State>, events: seq<Event>, me: Node, i: nat)
    requires Behaviour(b, events, me) && i < |events|
    requires events[i].Put? && events[i].fate.Replies?
    requires b[i].Of(events[i].task).Loaded?
    requires var name := b[i].Of(events[i].task).name; name in b[i].held && b[i].Untouched(name)
    ensures var p := b[i].Of(events[i].task);
            RefusedAt(b, events, i) <==> b[i].held[p.name].tag != p.read.tag
  {
    BehaviourKeepsInv(b, events, me, i);
    var p := b[i].Of(events[i].task);
    assert p.Inside();
    assert InStep(b[i], p.name);
  }

  lemma Extend(b: seq<State>, events: seq<Event>, e: Event, me: Node) returns (b': seq<State>, events': seq<Event>)
    requires Behaviour(b, events, me) && Enabled(b[|b| - 1], e, me)
    ensures Behaviour(b', events', me)
    ensures events' == events + [e] && b' == b + [Next(b[|b| - 1], e, me)]
  {
    b', events' := b + [Next(b[|b| - 1], e, me)], events + [e];
  }

  /** One task claims the free name "s". */
  lemma HoldOneName(me: Node) returns (b: seq<State>, events: seq<Event>)
    ensures Behaviour(b, events, me)
    ensures forall e :: e in events ==> !e.Foreign? && (e.Put? ==> e.fate.Replies?)
    ensures var v := Versioned(Claimed(None, me, "e", 15, 0), "a");
            b[|b| - 1] == State(map["s" := v], map["s" := v], None, map["pass" := Idle], {}, {})
  {
    b, events := [Boot], [];
    assert MayClaim(None, me, 0);
    b, events := Extend(b, events, Enter("pass"), me);
    b, events := Extend(b, events, LookUp("pass", "s"), me);
    b, events := Extend(b, events, Put("pass", Claimed(None, me, "e", 15, 0), "a", Replies), me);
    b, events := Extend(b, events, Record("pass"), me);
  }

  /** The name is read early, and then a stamp takes the lock. */
  lemma StampEnters(me: Node, verb: Verb) returns (b: seq<State>, events: seq<Event>)
    requires verb.SetInstance? || verb.Release?
    ensures Behaviour(b, events, me)
    ensures forall e :: e in events ==> !e.Foreign? && (e.Put? ==> e.fate.Replies?)
    ensures var v := Versioned(Claimed(None, me, "e", 15, 0), "a");
            b[|b| - 1] == State(map["s" := v], map["s" := v], Some("stamp"),
                                map["pass" := Early("s", v, verb), "stamp" := Entered], {}, {})
  {
    b, events := HoldOneName(me);
    b, events := Extend(b, events, ReadEarly("pass", "s", verb), me);
    b, events := Extend(b, events, Enter("stamp"), me);
  }

  /** The stamp goes through before the reader gets the lock. */
  lemma StampInBetween(me: Node, verb: Verb) returns (b: seq<State>, events: seq<Event>)
    requires verb.SetInstance? || verb.Release?
    ensures Behaviour(b, events, me)
    ensures forall e :: e in events ==> !e.Foreign? && (e.Put? ==> e.fate.Replies?)
    ensures var l := Claimed(None, me, "e", 15, 0);
            var v := Versioned(l.(state := Some("paused")), "b");
            b[|b| - 1] == State(map["s" := v], map["s" := v], None,
                                map["pass" := Early("s", Versioned(l, "a"), verb), "stamp" := Idle], {}, {})
  {
    var l := Claimed(None, me, "e", 15, 0);
    b, events := StampEnters(me, verb);
    b, events := Extend(b, events, Load("stamp", "s", Stamp(Some("paused"))), me);
    b, events := Extend(b, events, Put("stamp", l.(state := Some("paused")), "b", Replies), me);
    b, events := Extend(b, events, Record("stamp"), me);
  }

  /** A run in which nobody else ever writes and every reply arrives, and yet recording an
      instance (or releasing) is refused: the node drops a name whose record it still owns,
      and a "released" record is still live. */
  lemma OwnStampFencesEarlyRead(me: Node, verb: Verb) returns (b: seq<State>, events: seq<Event>)
    requires verb.SetInstance? || verb.Release?
    ensures Behaviour(b, events, me) && |events| > 2
    ensures forall e :: e in events ==> !e.Foreign? && (e.Put? ==> e.fate.Replies?)
    ensures RefusedAt(b, events, |events| - 2)
    ensures b[|b| - 1].held == map[] && "s" in b[|b| - 1].slots
    ensures var kept := b[|b| - 1].slots["s"].lease; kept.owner == me && !kept.ExpiredAt(14)
  {
    b, events := StampInBetween(me, verb);
    b, events := Extend(b, events, Enter("pass"), me);
    b, events := Extend(b, events, Put("pass", Rewrite(Claimed(None, me, "e", 15, 0), verb), "c", Replies), me);
    b, events := Extend(b, events, Record("pass"), me);
  }
}
