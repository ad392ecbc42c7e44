/**
 Ownership of a session name (crates/barista-fleet/src/lease.rs).

 One record per name, replaced only by conditional writes.  The first half of the
 module is the verbs; the second half lets any number of nodes, each with an
 arbitrary clock and arbitrarily stale evidence, issue those verbs in any order.
 */
module Leases {
  import opened Prelude

  type Node = string
  type Tag = string

  datatype Lease = Lease(
    owner: Node, epoch: nat, expiresMs: int,
    endpoint: string, instanceId: string, state: Option<string>)
  {
    predicate ExpiredAt(nowMs: int) {
      expiresMs <= nowMs
    }
  }

  /** A record together with the version tag the backend gave it.  A node that wrote
      one of these holds it as its evidence of ownership (`Held`). */
  datatype Versioned = Versioned(lease: Lease, tag: Tag)

  datatype Timing = Timing(ttlMs: nat, renewEveryMs: nat)
  {
    predicate Valid() {
      renewEveryMs != 0 && ttlMs > renewEveryMs
    }
  }

  /** The writes a holder may make on the strength of the version it holds. */
  datatype Verb =
    | Renew(ttlMs: nat, nowMs: int, state: Option<string>)
    | Stamp(state: Option<string>)
    | SetInstance(instanceId: string)
    | Release

  /** The record a fenced verb writes, given the record the holder last wrote. */
  function Rewrite(held: Lease, verb: Verb): (next: Lease) {
    match verb
    case Renew(ttlMs, nowMs, state) => held.(expiresMs := nowMs + ttlMs, state := state)
    case Stamp(state) => held.(state := state)
    case SetInstance(id) => held.(instanceId := id)
    case Release => held.(expiresMs := 0)
  }

  /** The record an acquisition writes, given the record it read. */
  function Claimed(basis: Option<Versioned>, me: Node, endpoint: string, ttlMs: nat, nowMs: int): (next: Lease) {
    match basis
    case None => Lease(me, 1, nowMs + ttlMs, endpoint, "", None)
    case Some(v) =>
      var keeps := v.lease.owner == me && !v.lease.ExpiredAt(nowMs);
      Lease(me, if keeps then v.lease.epoch else v.lease.epoch + 1,
            nowMs + ttlMs, endpoint, v.lease.instanceId, None)
  }

  /** A live record of somebody else's is left alone. */
  predicate MayClaim(basis: Option<Versioned>, me: Node, nowMs: int) {
    basis.None? || basis.value.lease.owner == me || basis.value.lease.ExpiredAt(nowMs)
  }

  /** The condition the backend evaluates: creation needs an absent record, an update
      needs the version named. */
  datatype PutMode = Create | Update(tag: Tag)

  predicate Admits(slot: Option<Versioned>, mode: PutMode) {
    match mode
    case Create => slot.None?
    case Update(tag) => slot.Some? && slot.value.tag == tag
  }

  function ClaimMode(basis: Option<Versioned>): PutMode {
    if basis.None? then Create else Update(basis.value.tag)
  }

  // ---------------------------------------------------------------------------
  // The verbs, as operations on a bucket
  // ---------------------------------------------------------------------------

  datatype Acquired =
    | Won(held: Versioned)
    | HeldByOther(owner: Node, expiresMs: int)
    | Contended
    | BadTiming

  datatype Renewed = Kept(held: Versioned) | Fenced

  /** What one acquisition attempt does to a name.  `rival` is another node's accepted
      write landing between this attempt's read and its write. */
  function Attempt(slot: Option<Versioned>, rival: Option<Versioned>, me: Node, endpoint: string,
                   timing: Timing, nowMs: int, tag: Tag): (r: (Option<Versioned>, Acquired))
  {
    var raced := if rival.Some? then rival else slot;
    if !timing.Valid() then (slot, BadTiming)
    else if !MayClaim(slot, me, nowMs) then
      (raced, HeldByOther(slot.value.lease.owner, slot.value.lease.expiresMs))
    else if Admits(raced, ClaimMode(slot)) then
      var mine := Versioned(Claimed(slot, me, endpoint, timing.ttlMs, nowMs), tag);
      (Some(mine), Won(mine))
    else (raced, Contended)
  }

  /** What one fenced write does to a name. */
  function Written(slot: Option<Versioned>, held: Versioned, verb: Verb, tag: Tag): (r: (Option<Versioned>, Renewed)) {
    var next := Versioned(Rewrite(held.lease, verb), tag);
    if Admits(slot, Update(held.tag)) then (Some(next), Kept(next)) else (slot, Fenced)
  }

  /** The surroundings of one attempt: the caller's clock, the tag the backend would
      issue, and the rival write if there is one. */
  datatype Turn = Turn(nowMs: int, tag: Tag, rival: Option<Versioned>)

  /** Attempts are repeated while they are contended and turns remain. */
  function Attempts(slot: Option<Versioned>, turns: seq<Turn>, me: Node, endpoint: string, timing: Timing)
    : (r: (Option<Versioned>, Acquired))
    requires |turns| > 0
    decreases |turns|
  {
    var first := Attempt(slot, turns[0].rival, me, endpoint, timing, turns[0].nowMs, turns[0].tag);
    if first.1.Contended? && |turns| > 1 then Attempts(first.0, turns[1..], me, endpoint, timing) else first
  }

  /** The record is another node's, and live. */
  predicate Guards(slot: Option<Versioned>, me: Node, nowMs: int) {
    slot.Some? && slot.value.lease.owner != me && slot.value.lease.expiresMs > nowMs
  }

  /** What a won name says: its new owner until the TTL, at the endpoint given, with the
      instance carried over and no run state; the epoch is the next one unless the winner
      already held the name. */
  predicate Takes(slot: Option<Versioned>, next: Lease, me: Node, endpoint: string, untilMs: int, nowMs: int) {
    && next.owner == me && next.expiresMs == untilMs && next.endpoint == endpoint && next.state == None
    && next.instanceId == (if slot.Some? then slot.value.lease.instanceId else "")
    && next.epoch == (if slot.None? then 1
                      else if slot.value.lease.owner == me && slot.value.lease.expiresMs > nowMs then slot.value.lease.epoch
                      else slot.value.lease.epoch + 1)
  }

  /** What each fenced write changes of the lease held, and that it changes nothing else. */
  predicate Changes(held: Lease, verb: Verb, next: Lease) {
    && next.owner == held.owner && next.epoch == held.epoch && next.endpoint == held.endpoint
    && (match verb
        case Renew(ttlMs, nowMs, state) =>
          next.expiresMs == nowMs + ttlMs && next.state == state && next.instanceId == held.instanceId
        case Stamp(state) =>
          next.expiresMs == held.expiresMs && next.state == state && next.instanceId == held.instanceId
        case SetInstance(id) =>
          next.expiresMs == held.expiresMs && next.state == held.state && next.instanceId == id
        case Release =>
          next.expiresMs == 0 && next.state == held.state && next.instanceId == held.instanceId)
  }

  class Bucket {
    var sessions: map<string, Versioned>

    ghost function Slot(name: string): (slot: Option<Versioned>)
      reads this
    {
      if name in sessions then Some(sessions[name]) else None
    }

    twostate predicate OnlyTouches(name: string)
      reads this
    {
      forall other :: other != name ==> Slot(other) == old(Slot(other))
    }

    constructor ()
      ensures forall name :: Slot(name) == None
    {
      sessions := map[];
    }

    method Read(name: string) returns (slot: Option<Versioned>)
      ensures slot == Slot(name)
    {
      slot := if name in sessions then Some(sessions[name]) else None;
    }

    /** The one conditional write.  `tag` is the version the backend issues if it accepts. */
    method Put(name: string, lease: Lease, mode: PutMode, tag: Tag) returns (version: Option<Tag>)
      modifies this
      ensures OnlyTouches(name)
      ensures version == if old(Admits(Slot(name), mode)) then Some(tag) else None
      ensures Slot(name) == if version.Some? then Some(Versioned(lease, tag)) else old(Slot(name))
    {
      var slot := Read(name);
      if Admits(slot, mode) {
        sessions := sessions[name := Versioned(lease, tag)];
        version := Some(tag);
      } else {
        version := None;
      }
    }

    method Acquire(name: string, me: Node, endpoint: string, timing: Timing, turn: Turn) returns (outcome: Acquired)
      modifies this
      ensures OnlyTouches(name)
      ensures (Slot(name), outcome) ==
              Attempt(old(Slot(name)), turn.rival, me, endpoint, timing, turn.nowMs, turn.tag)
      ensures outcome.BadTiming? <==> timing.renewEveryMs == 0 || timing.ttlMs <= timing.renewEveryMs
      ensures !outcome.BadTiming? ==>
                (outcome.HeldByOther? <==> Guards(old(Slot(name)), me, turn.nowMs)) &&
                (outcome.HeldByOther? ==> outcome.owner == old(Slot(name)).value.lease.owner &&
                                          outcome.expiresMs == old(Slot(name)).value.lease.expiresMs)
      ensures outcome.Won? ==> Slot(name) == Some(outcome.held) && outcome.held.tag == turn.tag &&
                               Takes(old(Slot(name)), outcome.held.lease, me, endpoint, turn.nowMs + timing.ttlMs, turn.nowMs)
      ensures !outcome.BadTiming? && !outcome.HeldByOther? ==>
                (outcome.Won? <==> turn.rival.None? || (old(Slot(name)).Some? && turn.rival.value.tag == old(Slot(name)).value.tag))
    {
      if !timing.Valid() {
        return BadTiming;
      }
      var basis := Read(name);
      if turn.rival.Some? {
        sessions := sessions[name := turn.rival.value];
      }
      var epoch, instanceId, mode := 1, "", Create;
      if basis.Some? {
        var prev := basis.value.lease;
        if !prev.ExpiredAt(turn.nowMs) && prev.owner != me {
          return HeldByOther(prev.owner, prev.expiresMs);
        }
        epoch := prev.epoch;
        if prev.owner != me || prev.ExpiredAt(turn.nowMs) {
          epoch := epoch + 1;
        }
        instanceId := prev.instanceId;
        mode := Update(basis.value.tag);
      }
      var lease := Lease(me, epoch, turn.nowMs + timing.ttlMs, endpoint, instanceId, None);
      var version := Put(name, lease, mode, turn.tag);
      outcome := if version.Some? then Won(Versioned(lease, version.value)) else Contended;
    }

    /** `attempts.max(1)` tries; only a lost race is worth another. */
    method AcquireWithRetry(name: string, me: Node, endpoint: string, timing: Timing, turns: seq<Turn>)
      returns (last: Acquired)
      requires |turns| > 0
      modifies this
      ensures OnlyTouches(name)
      ensures (Slot(name), last) == Attempts(old(Slot(name)), turns, me, endpoint, timing)
    {
      last := Contended;
      var i := 0;
      while i < |turns|
        invariant 0 <= i <= |turns|
        invariant OnlyTouches(name)
        invariant i > 0 ==> last.Contended?
        invariant i == |turns| ==>
                    (Slot(name), last) == Attempts(old(Slot(name)), turns, me, endpoint, timing)
        invariant i < |turns| ==>
                    Attempts(Slot(name), turns[i..], me, endpoint, timing)
                    == Attempts(old(Slot(name)), turns, me, endpoint, timing)
      {
        last := Acquire(name, me, endpoint, timing, turns[i]);
        assert turns[i..][1..] == turns[i + 1..];
        if !last.Contended? {
          return;
        }
        i := i + 1;
      }
    }

    /** `renew`, `stamp_state`, `set_instance` and `release`: one conditional write each. */
    method Write(name: string, held: Versioned, verb: Verb, tag: Tag) returns (outcome: Renewed)
      modifies this
      ensures OnlyTouches(name)
      ensures (Slot(name), outcome) == Written(old(Slot(name)), held, verb, tag)
      ensures outcome.Kept? <==> old(Slot(name)).Some? && old(Slot(name)).value.tag == held.tag
      ensures outcome.Kept? ==> Slot(name) == Some(outcome.held) && outcome.held.tag == tag &&
                                Changes(held.lease, verb, outcome.held.lease)
      ensures outcome.Fenced? ==> Slot(name) == old(Slot(name))
    {
      var lease := held.lease;
      match verb {
        case Renew(ttlMs, nowMs, state) => lease := lease.(expiresMs := nowMs + ttlMs, state := state);
        case Stamp(state) => lease := lease.(state := state);
        case SetInstance(id) => lease := lease.(instanceId := id);
        case Release => lease := lease.(expiresMs := 0);
      }
      var version := Put(name, lease, Update(held.tag), tag);
      outcome := if version.Some? then Kept(Versioned(lease, version.value)) else Fenced;
    }
  }

  /** A retrying acquisition reports contention exactly when every one of its turns was
      beaten by a write that moved the version (or created the record). */
  ghost predicate Beaten(slot: Option<Versioned>, turns: seq<Turn>, me: Node)
    decreases |turns|
  {
    turns == [] ||
    (MayClaim(slot, me, turns[0].nowMs) && turns[0].rival.Some? &&
     (slot.Some? ==> turns[0].rival.value.tag != slot.value.tag) &&
     Beaten(turns[0].rival, turns[1..], me))
  }

  lemma {:induction false} ContendedExactlyWhenAlwaysBeaten(
    slot: Option<Versioned>, turns: seq<Turn>, me: Node, endpoint: string, timing: Timing)
    requires |turns| > 0 && timing.Valid()
    ensures Attempts(slot, turns, me, endpoint, timing).1.Contended? <==> Beaten(slot, turns, me)
    decreases |turns|
  {
    var first := Attempt(slot, turns[0].rival, me, endpoint, timing, turns[0].nowMs, turns[0].tag);
    if first.1.Contended? {
      assert first.0 == turns[0].rival;
      if |turns| > 1 {
        ContendedExactlyWhenAlwaysBeaten(turns[0].rival, turns[1..], me, endpoint, timing);
      }
    }
  }

  // ---------------------------------------------------------------------------
  // Any number of nodes
  // ---------------------------------------------------------------------------

  /** One name as the whole fleet sees it.  `log` is every record the backend ever
      accepted, oldest first; `seen` what each node ever read; `held` every version each
      node was ever answered.  A node may act on anything it ever saw or held. */
  datatype System = System(
    slot: Option<Versioned>, log: seq<Versioned>,
    seen: set<(Node, Option<Versioned>)>, held: set<(Node, Versioned)>)

  const Initial := System(None, [], {}, {})

  /** `answered` is false when the write is applied and the reply is lost. */
  datatype Action =
    | Look(node: Node)
    | Claim(node: Node, basis: Option<Versioned>, endpoint: string, ttlMs: nat, nowMs: int, tag: Tag, answered: bool)
    | Use(node: Node, evidence: Versioned, verb: Verb, tag: Tag, answered: bool)

  /** The only thing assumed of version tags: equal tags name equal records.  They may be
      content hashes, and may come back. */
  ghost predicate TagFits(log: seq<Versioned>, v: Versioned) {
    forall i :: 0 <= i < |log| && log[i].tag == v.tag ==> log[i].lease == v.lease
  }

  function Accept(s: System, node: Node, v: Versioned, answered: bool): System {
    s.(slot := Some(v), log := s.log + [v], held := if answered then s.held + {(node, v)} else s.held)
  }

  ghost predicate Step(s: System, a: Action, t: System) {
    match a
    case Look(node) => t == s.(seen := s.seen + {(node, s.slot)})
    case Claim(node, basis, endpoint, ttlMs, nowMs, tag, answered) =>
      var v := Versioned(Claimed(basis, node, endpoint, ttlMs, nowMs), tag);
      && (node, basis) in s.seen && MayClaim(basis, node, nowMs)
      && if Admits(s.slot, ClaimMode(basis)) then TagFits(s.log, v) && t == Accept(s, node, v, answered)
         else t == s
    case Use(node, evidence, verb, tag, answered) =>
      var v := Versioned(Rewrite(evidence.lease, verb), tag);
      && (node, evidence) in s.held
      && if Admits(s.slot, Update(evidence.tag)) then TagFits(s.log, v) && t == Accept(s, node, v, answered)
         else t == s
  }

  ghost predicate Behaviour(b: seq<System>, actions: seq<Action>) {
    |b| == |actions| + 1 && b[0] == Initial &&
    forall i :: 0 <= i < |actions| ==> Step(b[i], actions[i], b[i + 1])
  }

  /** A fenced write on the bucket is a step of the fleet, and its answer what the node then
      holds. */
  lemma WriteIsAStep(s: System, node: Node, held: Versioned, verb: Verb, tag: Tag) returns (t: System)
    requires (node, held) in s.held
    requires Admits(s.slot, Update(held.tag)) ==> TagFits(s.log, Versioned(Rewrite(held.lease, verb), tag))
    ensures Step(s, Use(node, held, verb, tag, true), t)
    ensures var (slot, outcome) := Written(s.slot, held, verb, tag);
            t.slot == slot && (outcome.Kept? ==> slot == Some(outcome.held) && (node, outcome.held) in t.held) &&
            (outcome.Fenced? ==> t == s)
  {
    var v := Versioned(Rewrite(held.lease, verb), tag);
    t := if Admits(s.slot, Update(held.tag)) then Accept(s, node, v, true) else s;
  }

  /** So is an acquisition: a look at `s`, whatever steps the others then make to reach `r`
      (the rival's write among them), and a claim, unless the record read is another's and
      live. */
  lemma AttemptIsSteps(s: System, r: System, node: Node, endpoint: string, timing: Timing, turn: Turn) returns (t: System)
    requires timing.Valid() && (node, s.slot) in r.seen && r.slot == (if turn.rival.Some? then turn.rival else s.slot)
    requires Admits(r.slot, ClaimMode(s.slot)) ==>
               TagFits(r.log, Versioned(Claimed(s.slot, node, endpoint, timing.ttlMs, turn.nowMs), turn.tag))
    ensures var looked := s.(seen := s.seen + {(node, s.slot)}); Step(s, Look(node), looked) && (node, s.slot) in looked.seen
    ensures var (slot, outcome) := Attempt(s.slot, turn.rival, node, endpoint, timing, turn.nowMs, turn.tag);
            && t.slot == slot
            && (if outcome.HeldByOther? then t == r && !MayClaim(s.slot, node, turn.nowMs)
                else Step(r, Claim(node, s.slot, endpoint, timing.ttlMs, turn.nowMs, turn.tag, true), t))
            && (outcome.Won? ==> (node, outcome.held) in t.held)
            && (outcome.Contended? ==> t == r)
  {
    var v := Versioned(Claimed(s.slot, node, endpoint, timing.ttlMs, turn.nowMs), turn.tag);
    t := if MayClaim(s.slot, node, turn.nowMs) && Admits(r.slot, ClaimMode(s.slot)) then Accept(r, node, v, true) else r;
  }

  /** Of two records accepted one after the other, the later has no lower epoch, and a
      different owner only at a higher one. */
  ghost predicate Follows(earlier: Lease, later: Lease) {
    earlier.epoch <= later.epoch && (earlier.epoch == later.epoch ==> earlier.owner == later.owner)
  }

  ghost predicate Inv(s: System) {
    && (s.slot.None? <==> s.log == [])
    && (s.slot.Some? ==> s.slot.value == s.log[|s.log| - 1])
    && (forall i, j :: 0 <= i < |s.log| && 0 <= j < |s.log| && s.log[i].tag == s.log[j].tag ==>
          s.log[i].lease == s.log[j].lease)
    && (forall i, j :: 0 <= i <= j < |s.log| ==> Follows(s.log[i].lease, s.log[j].lease))
    && (forall r :: r in s.seen && r.1.Some? ==> r.1.value in s.log)
    && (forall h :: h in s.held ==> h.1 in s.log && h.1.lease.owner == h.0)
  }

  /** A conditional update that is admitted found exactly the record its evidence names,
      although tags may be reused. */
  lemma AdmittedSawCurrent(s: System, evidence: Versioned)
    requires Inv(s) && evidence in s.log && Admits(s.slot, Update(evidence.tag))
    ensures s.slot.value.lease == evidence.lease
  {
    var i :| 0 <= i < |s.log| && s.log[i] == evidence;
    assert s.log[|s.log| - 1].tag == s.log[i].tag;
  }

  lemma AcceptKeepsInv(s: System, node: Node, v: Versioned, answered: bool)
    requires Inv(s) && TagFits(s.log, v) && v.lease.owner == node
    requires s.slot.Some? ==> Follows(s.slot.value.lease, v.lease)
    ensures Inv(Accept(s, node, v, answered))
  {
    var t := Accept(s, node, v, answered);
    var n := |s.log|;
    forall i | 0 <= i <= n
      ensures Follows(t.log[i].lease, t.log[n].lease)
    {
      if i < n {
        assert Follows(s.log[i].lease, s.log[n - 1].lease);
      }
    }
  }

  lemma StepKeepsInv(s: System, a: Action, t: System)
    requires Inv(s) && Step(s, a, t)
    ensures Inv(t)
    ensures s.log <= t.log
  {
    match a
    case Look(_) =>
    case Claim(node, basis, endpoint, ttlMs, nowMs, tag, answered) =>
      if Admits(s.slot, ClaimMode(basis)) {
        if basis.Some? {
          AdmittedSawCurrent(s, basis.value);
        }
        AcceptKeepsInv(s, node, Versioned(Claimed(basis, node, endpoint, ttlMs, nowMs), tag), answered);
      }
    case Use(node, evidence, verb, tag, answered) =>
      if Admits(s.slot, Update(evidence.tag)) {
        AdmittedSawCurrent(s, evidence);
        AcceptKeepsInv(s, node, Versioned(Rewrite(evidence.lease, verb), tag), answered);
      }
  }

  lemma {:induction false} BehaviourKeepsInv(b: seq<System>, actions: seq<Action>, i: nat)
    requires Behaviour(b, actions) && i < |b|
    ensures Inv(b[i])
  {
    if i > 0 {
      BehaviourKeepsInv(b, actions, i - 1);
      StepKeepsInv(b[i - 1], actions[i - 1], b[i]);
    }
  }

  lemma {:induction false} LogOnlyGrows(b: seq<System>, actions: seq<Action>, i: nat, j: nat)
    requires Behaviour(b, actions) && i <= j < |b|
    ensures b[i].log <= b[j].log
    decreases j - i
  {
    if i < j {
      LogOnlyGrows(b, actions, i, j - 1);
      BehaviourKeepsInv(b, actions, j - 1);
      StepKeepsInv(b[j - 1], actions[j - 1], b[j]);
    }
  }

  /** Every interleaving, any clocks: a name once owned stays recorded, its epoch never
      decreases, an epoch keeps its owner for all time, and so the owner changes only
      together with an epoch advance. */
  lemma EachEpochHasOneOwner(b: seq<System>, actions: seq<Action>, i: nat, j: nat)
    requires Behaviour(b, actions) && i <= j < |b| && b[i].slot.Some?
    ensures b[j].slot.Some?
    ensures b[i].slot.value.lease.epoch <= b[j].slot.value.lease.epoch
    ensures b[i].slot.value.lease.epoch == b[j].slot.value.lease.epoch ==>
              b[i].slot.value.lease.owner == b[j].slot.value.lease.owner
  {
    BehaviourKeepsInv(b, actions, i);
    BehaviourKeepsInv(b, actions, j);
    LogOnlyGrows(b, actions, i, j);
    var m := |b[i].log| - 1;
    assert b[j].log[m] == b[i].log[m];
    assert Follows(b[j].log[m].lease, b[j].log[|b[j].log| - 1].lease);
  }

  /** The same over everything the backend ever accepted, not only what some observer saw. */
  lemma NoEpochWasEverShared(b: seq<System>, actions: seq<Action>, v: Versioned, w: Versioned)
    requires Behaviour(b, actions)
    requires v in b[|b| - 1].log && w in b[|b| - 1].log && v.lease.epoch == w.lease.epoch
    ensures v.lease.owner == w.lease.owner
  {
    var s := b[|b| - 1];
    BehaviourKeepsInv(b, actions, |b| - 1);
    var i :| 0 <= i < |s.log| && s.log[i] == v;
    var j :| 0 <= j < |s.log| && s.log[j] == w;
    assert if i <= j then Follows(s.log[i].lease, s.log[j].lease) else Follows(s.log[j].lease, s.log[i].lease);
  }

  /** Over every interleaving, the step by which a record's expiry moves later is a claim or a
      renewal, on that node's clock: stamping, recording an instance and releasing never extend.
      (Releasing writes zero, hence the non-negative expiry.) */
  lemma OnlyClaimsAndRenewalsExtend(b: seq<System>, actions: seq<Action>, i: nat)
    requires Behaviour(b, actions) && i < |actions| && b[i].slot.Some?
    requires b[i + 1].slot.Some? && b[i + 1].slot.value.lease.expiresMs > b[i].slot.value.lease.expiresMs
    requires b[i].slot.value.lease.expiresMs >= 0
    ensures var a, lease := actions[i], b[i + 1].slot.value.lease;
            && (a.Claim? || (a.Use? && a.verb.Renew?))
            && lease.owner == a.node
            && lease.expiresMs == (if a.Claim? then a.nowMs + a.ttlMs else a.verb.nowMs + a.verb.ttlMs)
            && lease.instanceId == b[i].slot.value.lease.instanceId
  {
    var s := b[i];
    BehaviourKeepsInv(b, actions, i);
    BehaviourKeepsInv(b, actions, i + 1);
    assert Step(s, actions[i], b[i + 1]);
    match actions[i]
    case Look(_) =>
    case Claim(node, basis, _, _, _, _, _) =>
      if Admits(s.slot, ClaimMode(basis)) {
        assert (node, basis) in s.seen && basis.Some?;
        AdmittedSawCurrent(s, basis.value);
      }
    case Use(node, evidence, _, _, _) =>
      if Admits(s.slot, Update(evidence.tag)) {
        assert (node, evidence) in s.held;
        AdmittedSawCurrent(s, evidence);
      }
  }

  /** Over every interleaving, the step by which a name changes hands is a claim by its new
      owner, on whose clock the old owner's lease has lapsed. */
  lemma OwnerChangesOnlyAfterExpiry(b: seq<System>, actions: seq<Action>, i: nat)
    requires Behaviour(b, actions) && i < |actions| && b[i].slot.Some? && b[i + 1].slot.Some?
    requires b[i].slot.value.lease.owner != b[i + 1].slot.value.lease.owner
    ensures var a, before, after := actions[i], b[i].slot.value.lease, b[i + 1].slot.value.lease;
            && a.Claim? && after.owner == a.node && before.expiresMs <= a.nowMs
            && after.expiresMs == a.nowMs + a.ttlMs && after.epoch == before.epoch + 1
            && after.instanceId == before.instanceId && after.endpoint == a.endpoint && after.state == None
  {
    var s := b[i];
    BehaviourKeepsInv(b, actions, i);
    BehaviourKeepsInv(b, actions, i + 1);
    assert Step(s, actions[i], b[i + 1]);
    match actions[i]
    case Look(_) =>
    case Claim(node, basis, _, _, _, _, _) =>
      if Admits(s.slot, ClaimMode(basis)) {
        assert (node, basis) in s.seen && basis.Some?;
        AdmittedSawCurrent(s, basis.value);
      }
    case Use(node, evidence, _, _, _) =>
      if Admits(s.slot, Update(evidence.tag)) {
        assert (node, evidence) in s.held;
        AdmittedSawCurrent(s, evidence);
      }
  }

  /** An accepted write of the fleet changes of the record it found exactly what its verb says. */
  lemma AcceptedWriteChanges(b: seq<System>, actions: seq<Action>, i: nat)
    requires Behaviour(b, actions) && i < |actions| && actions[i].Use?
    requires b[i].slot.Some? && b[i].slot.value.tag == actions[i].evidence.tag
    ensures b[i + 1].slot.Some? && b[i + 1].slot.value.tag == actions[i].tag
    ensures Changes(b[i].slot.value.lease, actions[i].verb, b[i + 1].slot.value.lease)
  {
    BehaviourKeepsInv(b, actions, i);
    assert Step(b[i], actions[i], b[i + 1]);
    assert (actions[i].node, actions[i].evidence) in b[i].held;
    AdmittedSawCurrent(b[i], actions[i].evidence);
  }

  /** A released name is free: whoever tries next, with any clock that is not negative, wins it
      at the next epoch and finds the instance it carried. */
  lemma ReleasedIsFree(slot: Versioned, held: Versioned, tag: Tag, me: Node, endpoint: string, timing: Timing, turn: Turn)
    requires slot.tag == held.tag && timing.Valid() && turn.nowMs >= 0 && turn.rival.None?
    ensures var released := Written(Some(slot), held, Release, tag).0;
            var (after, outcome) := Attempt(released, None, me, endpoint, timing, turn.nowMs, turn.tag);
            && outcome.Won? && after == Some(outcome.held)
            && outcome.held.lease.owner == me && outcome.held.lease.epoch == held.lease.epoch + 1
            && outcome.held.lease.instanceId == held.lease.instanceId
  {
  }

  /** The action is an admitted re-acquisition by the owner of its own lapsed lease. */
  ghost predicate Retakes(s: System, a: Action) {
    a.Claim? && a.basis.Some? && Admits(s.slot, ClaimMode(a.basis)) &&
    a.basis.value.lease.owner == a.node && a.basis.value.lease.ExpiredAt(a.nowMs)
  }

  /** The record's documentation equates "the epoch changed" with "the owner changed".
      That holds of a step exactly when the step does not re-take the owner's own lapsed
      lease; and no step advances the epoch by more than one. */
  lemma EpochTracksOwnerExactlyWhen(b: seq<System>, actions: seq<Action>, i: nat)
    requires Behaviour(b, actions) && i < |actions| && b[i].slot.Some?
    ensures b[i + 1].slot.Some?
    ensures var l, r := b[i].slot.value.lease, b[i + 1].slot.value.lease;
            && l.epoch <= r.epoch <= l.epoch + 1
            && (((l.epoch != r.epoch) <==> (l.owner != r.owner)) <==> !Retakes(b[i], actions[i]))
  {
    var s := b[i];
    BehaviourKeepsInv(b, actions, i);
    assert Step(s, actions[i], b[i + 1]);
    match actions[i]
    case Look(_) =>
    case Claim(node, basis, _, _, _, _, _) =>
      if Admits(s.slot, ClaimMode(basis)) {
        assert (node, basis) in s.seen && basis.Some?;
        AdmittedSawCurrent(s, basis.value);
      }
    case Use(node, evidence, _, _, _) =>
      if Admits(s.slot, Update(evidence.tag)) {
        assert (node, evidence) in s.held;
        AdmittedSawCurrent(s, evidence);
      }
  }

  /** A run of the exception: one node, two epochs. */
  lemma OneOwnerTwoEpochs() returns (b: seq<System>, actions: seq<Action>)
    ensures Behaviour(b, actions)
    ensures |b| == 5 && b[2].slot.Some? && b[4].slot.Some?
    ensures b[2].slot.value.lease.owner == b[4].slot.value.lease.owner
    ensures b[2].slot.value.lease.epoch == 1 && b[4].slot.value.lease.epoch == 2
  {
    var v1 := Versioned(Claimed(None, "n1", "e", 15, 0), "a");
    var v2 := Versioned(Claimed(Some(v1), "n1", "e", 15, 15), "b");
    actions := [Look("n1"), Claim("n1", None, "e", 15, 0, "a", true),
                Look("n1"), Claim("n1", Some(v1), "e", 15, 15, "b", true)];
    var s1 := Initial.(seen := {("n1", None)});
    var s2 := Accept(s1, "n1", v1, true);
    var s3 := s2.(seen := s2.seen + {("n1", Some(v1))});
    b := [Initial, s1, s2, s3, Accept(s3, "n1", v2, true)];
  }

  /** Once a higher epoch has been stored, evidence of a lower one is refused at every
      later moment, whichever verb it is used with and whoever kept it. */
  lemma FencingIsPermanent(b: seq<System>, actions: seq<Action>, i: nat, j: nat, node: Node, evidence: Versioned)
    requires Behaviour(b, actions) && i <= j < |b| && b[i].slot.Some?
    requires (node, evidence) in b[j].held || (node, Some(evidence)) in b[j].seen
    requires evidence.lease.epoch < b[i].slot.value.lease.epoch
    ensures !Admits(b[j].slot, Update(evidence.tag))
    ensures forall verb, tag, answered, t :: Step(b[j], Use(node, evidence, verb, tag, answered), t) ==> t == b[j]
  {
    BehaviourKeepsInv(b, actions, j);
    EachEpochHasOneOwner(b, actions, i, j);
    if Admits(b[j].slot, Update(evidence.tag)) {
      AdmittedSawCurrent(b[j], evidence);
      assert false;
    }
  }
}
