/**
 The unreachability report (crates/barista-node-agent/src/fleet.rs `outage_after_renewals`,
 fleet_phase.rs `pass`).

 A pass renews every held lease, advances the outage episode, and only if every renewal
 was answered goes on to acquire, record and release.  Transition stamps may land between
 any two of these writes.
 */
module Outages {
  import opened Prelude
  import opened Leases

  type Name = string

  datatype Outage = Outage(sinceMs: int, reported: bool)

  function OutageAfterRenewals(outage: Option<Outage>, reached: bool, nowMs: int, ttlMs: nat): (r: (Option<Outage>, bool)) {
    if reached then (None, false)
    else match outage
      case None => (Some(Outage(nowMs, false)), false)
      case Some(o) =>
        if !o.reported && nowMs - o.sinceMs >= ttlMs then (Some(o.(reported := true)), true)
        else (Some(o), false)
  }

  datatype Answer = Renewed | FencedOut | Unreachable

  /** One lease write during the renewal phase, at `atMs` on this node's clock: a renewal
      and its answer, or a stamp by a concurrent transition. */
  datatype Visit =
    | Renewing(name: Name, atMs: int, answer: Answer, state: Option<string>)
    | Stamping(name: Name, atMs: int, state: Option<string>)

  /** A held-map change in the rest of the pass. */
  datatype Change =
    | Acquiring(name: Name, atMs: int, basis: Option<Versioned>, endpoint: string)
    | Naming(name: Name, atMs: int, instanceId: string)
    | StampingLate(name: Name, atMs: int, state: Option<string>)
    | Dropping(name: Name, atMs: int)

  type Held = map<Name, Lease>

  function Visited(held: Held, v: Visit, ttlMs: nat): (r: Held) {
    if v.name !in held then held
    else match v
      case Renewing(name, atMs, answer, state) =>
        (match answer
         case Renewed => held[name := Rewrite(held[name], Renew(ttlMs, atMs, state))]
         case FencedOut => held - {name}
         case Unreachable => held)
      case Stamping(name, _, state) => held[name := Rewrite(held[name], Stamp(state))]
  }

  function AfterVisits(held: Held, visits: seq<Visit>, ttlMs: nat): (r: Held) {
    if visits == [] then held
    else Visited(AfterVisits(held, visits[..|visits| - 1], ttlMs), visits[|visits| - 1], ttlMs)
  }

  function Changed(held: Held, c: Change, me: Node, ttlMs: nat): (r: Held) {
    match c
    case Acquiring(name, atMs, basis, endpoint) => held[name := Claimed(basis, me, endpoint, ttlMs, atMs)]
    case Naming(name, _, id) => if name in held then held[name := Rewrite(held[name], SetInstance(id))] else held
    case StampingLate(name, _, state) => if name in held then held[name := Rewrite(held[name], Stamp(state))] else held
    case Dropping(name, _) => held - {name}
  }

  function AfterChanges(held: Held, changes: seq<Change>, me: Node, ttlMs: nat): (r: Held) {
    if changes == [] then held
    else Changed(AfterChanges(held, changes[..|changes| - 1], me, ttlMs), changes[|changes| - 1], me, ttlMs)
  }

  /** Some renewal of a name still held was, or was not, left without an answer. */
  ghost predicate Tried(held: Held, visits: seq<Visit>, ttlMs: nat, silent: bool) {
    exists i :: 0 <= i < |visits| && visits[i].Renewing? && visits[i].answer.Unreachable? == silent &&
                visits[i].name in AfterVisits(held, visits[..i], ttlMs)
  }

  /** A refusal is contact too. */
  ghost predicate Reached(held: Held, visits: seq<Visit>, ttlMs: nat) {
    Tried(held, visits, ttlMs, false)
  }

  ghost predicate Missed(held: Held, visits: seq<Visit>, ttlMs: nat) {
    Tried(held, visits, ttlMs, true)
  }

  /** One pass: its renewal phase, the clock when the episode is advanced, and the rest. */
  datatype Round = Round(visits: seq<Visit>, endMs: int, changes: seq<Change>)

  class Fleet {
    var held: Held
    var outage: Option<Outage>

    constructor ()
      ensures held == map[] && outage == None
    {
      held := map[];
      outage := None;
    }

    /** The renewal loop. */
    method RenewHeld(visits: seq<Visit>, ttlMs: nat) returns (reached: bool, unavailable: bool)
      modifies this`held
      ensures held == AfterVisits(old(held), visits, ttlMs)
      ensures reached <==> Reached(old(held), visits, ttlMs)
      ensures unavailable <==> Missed(old(held), visits, ttlMs)
    {
      reached, unavailable := false, false;
      for i := 0 to |visits|
        invariant held == AfterVisits(old(held), visits[..i], ttlMs)
        invariant reached <==> Reached(old(held), visits[..i], ttlMs)
        invariant unavailable <==> Missed(old(held), visits[..i], ttlMs)
      {
        var visit := visits[i];
        TriedSoFar(old(held), visits, i, ttlMs, false);
        TriedSoFar(old(held), visits, i, ttlMs, true);
        assert visits[..i + 1][..i] == visits[..i];
        if visit.name in held {
          match visit
          case Renewing(name, atMs, answer, state) =>
            match answer {
              case Renewed =>
                held := held[name := Rewrite(held[name], Renew(ttlMs, atMs, state))];
                reached := true;
              case FencedOut =>
                held := held - {name};
                reached := true;
              case Unreachable =>
                unavailable := true;
            }
          case Stamping(name, _, state) =>
            held := held[name := Rewrite(held[name], Stamp(state))];
        }
      }
      assert visits[..|visits|] == visits;
    }

    /** The pass.  `due` is whether the past-TTL report is emitted, and `reported` is the
        held map it is emitted for. */
    method Pass(round: Round, me: Node, ttlMs: nat) returns (due: bool, reported: Held)
      modifies this
      ensures reported == AfterVisits(old(held), round.visits, ttlMs)
      ensures held == if Missed(old(held), round.visits, ttlMs) then reported
                      else AfterChanges(reported, round.changes, me, ttlMs)
      ensures (outage, due) == if old(held) == map[] then (old(outage), false)
                               else OutageAfterRenewals(old(outage), Reached(old(held), round.visits, ttlMs), round.endMs, ttlMs)
    {
      var attempted := held != map[];
      var reached, unavailable := RenewHeld(round.visits, ttlMs);
      due := false;
      reported := held;
      if attempted {
        var advanced := OutageAfterRenewals(outage, reached, round.endMs, ttlMs);
        outage, due := advanced.0, advanced.1;
      }
      if unavailable {
        return;
      }
      for i := 0 to |round.changes|
        invariant held == AfterChanges(reported, round.changes[..i], me, ttlMs)
        invariant (outage, due) == if old(held) == map[] then (old(outage), false)
                                   else OutageAfterRenewals(old(outage), reached, round.endMs, ttlMs)
      {
        assert round.changes[..i + 1][..i] == round.changes[..i];
        held := Changed(held, round.changes[i], me, ttlMs);
      }
      assert round.changes[..|round.changes|] == round.changes;
    }
  }

  /** The answers so far, and the next visit's. */
  lemma TriedSoFar(held: Held, visits: seq<Visit>, i: nat, ttlMs: nat, silent: bool)
    requires i < |visits|
    ensures Tried(held, visits[..i + 1], ttlMs, silent) <==>
              || Tried(held, visits[..i], ttlMs, silent)
              || (visits[i].Renewing? && visits[i].answer.Unreachable? == silent &&
                  visits[i].name in AfterVisits(held, visits[..i], ttlMs))
  {
    var longer, shorter := visits[..i + 1], visits[..i];
    assert longer[i] == visits[i] && longer[..i] == shorter;
    forall k | 0 <= k < i
      ensures longer[k] == shorter[k] && longer[..k] == shorter[..k]
    {
    }
  }

  /** One visit, name by name: an answered renewal is good for a TTL from its moment, a refused
      one loses the name, silence changes nothing, and a stamp changes the run state alone. */
  lemma VisitChanges(held: Held, v: Visit, ttlMs: nat)
    requires v.name in held
    ensures var after := Visited(held, v, ttlMs);
            && (forall n :: n in held && n != v.name ==> n in after && after[n] == held[n])
            && (forall n :: n in after ==> n in held)
            && (v.Renewing? && v.answer.FencedOut? <==> v.name !in after)
            && (v.Renewing? && v.answer.Renewed? ==> Changes(held[v.name], Renew(ttlMs, v.atMs, v.state), after[v.name]))
            && (v.Renewing? && v.answer.Unreachable? ==> after == held)
            && (v.Stamping? ==> Changes(held[v.name], Stamp(v.state), after[v.name]))
  {
  }

  lemma {:induction false} VisitsOnlyDrop(held: Held, visits: seq<Visit>, ttlMs: nat, i: nat, n: Name)
    requires i <= |visits| && n !in AfterVisits(held, visits[..i], ttlMs)
    ensures n !in AfterVisits(held, visits, ttlMs)
  {
    if i < |visits| {
      var m := |visits| - 1;
      assert visits[..m][..i] == visits[..i];
      VisitsOnlyDrop(held, visits[..m], ttlMs, i, n);
    } else {
      assert visits[..i] == visits;
    }
  }

  /** A name whose renewal is refused is no longer held when the phase ends. */
  lemma FencedNameIsGone(held: Held, visits: seq<Visit>, ttlMs: nat, i: nat)
    requires i < |visits| && visits[i].Renewing? && visits[i].answer.FencedOut?
    ensures visits[i].name !in AfterVisits(held, visits, ttlMs)
  {
    assert visits[..i + 1][..i] == visits[..i] && visits[..i + 1][i] == visits[i];
    VisitsOnlyDrop(held, visits, ttlMs, i + 1, visits[i].name);
  }

  /** The rest of the pass, name by name. */
  lemma ChangeMakes(held: Held, c: Change, me: Node, ttlMs: nat)
    ensures var after := Changed(held, c, me, ttlMs);
            && (forall n :: n in held && n != c.name ==> n in after && after[n] == held[n])
            && (forall n :: n in after ==> n in held || (c.Acquiring? && n == c.name))
            && (c.Dropping? ==> c.name !in after)
            && (c.Naming? && c.name in held ==> c.name in after && Changes(held[c.name], SetInstance(c.instanceId), after[c.name]))
            && (c.StampingLate? && c.name in held ==> c.name in after && Changes(held[c.name], Stamp(c.state), after[c.name]))
            && (c.Acquiring? ==> c.name in after && Takes(c.basis, after[c.name], me, c.endpoint, c.atMs + ttlMs, c.atMs))
  {
  }

  // ---------------------------------------------------------------------------
  // Runs
  // ---------------------------------------------------------------------------

  datatype State = State(held: Held, outage: Option<Outage>, nowMs: int)

  ghost predicate Ticking(from: int, times: seq<int>, to: int) {
    && from <= to
    && (forall i :: 0 <= i < |times| ==> from <= times[i] <= to)
  }

  /** The round visits every held name, on a clock that does not step back. */
  ghost predicate Covers(s: State, r: Round, t: State) {
    && (forall name :: name in s.held ==> exists i :: 0 <= i < |r.visits| && r.visits[i].Renewing? && r.visits[i].name == name)
    && Ticking(s.nowMs, seq(|r.visits|, i requires 0 <= i < |r.visits| => r.visits[i].atMs), r.endMs)
    && Ticking(r.endMs, seq(|r.changes|, i requires 0 <= i < |r.changes| => r.changes[i].atMs), t.nowMs)
  }

  /** One pass of the class above, as a step. */
  ghost predicate Step(s: State, r: Round, t: State, me: Node, ttlMs: nat) {
    var renewed := AfterVisits(s.held, r.visits, ttlMs);
    && Covers(s, r, t)
    && t.held == (if Missed(s.held, r.visits, ttlMs) then renewed else AfterChanges(renewed, r.changes, me, ttlMs))
    && t.outage == (if s.held == map[] then s.outage
                    else OutageAfterRenewals(s.outage, Reached(s.held, r.visits, ttlMs), r.endMs, ttlMs).0)
  }

  ghost predicate Due(s: State, r: Round, ttlMs: nat) {
    s.held != map[] && OutageAfterRenewals(s.outage, Reached(s.held, r.visits, ttlMs), r.endMs, ttlMs).1
  }

  ghost predicate Run(b: seq<State>, rounds: seq<Round>, me: Node, ttlMs: nat) {
    |b| == |rounds| + 1 && b[0].held == map[] && b[0].outage == None &&
    forall i :: 0 <= i < |rounds| ==> Step(b[i], rounds[i], b[i + 1], me, ttlMs)
  }

  ghost predicate ExpireBy(held: Held, limitMs: int) {
    forall name :: name in held ==> held[name].expiresMs <= limitMs
  }

  /** While an episode is open something is held, and nothing held outlives the episode's
      first failure by more than the TTL. */
  ghost predicate Inv(s: State, ttlMs: nat) {
    && ExpireBy(s.held, s.nowMs + ttlMs)
    && (s.outage.Some? ==> s.outage.value.sinceMs <= s.nowMs && s.held != map[] &&
                           ExpireBy(s.held, s.outage.value.sinceMs + ttlMs))
  }

  lemma {:induction false} VisitsExpireBy(held: Held, visits: seq<Visit>, ttlMs: nat, nowMs: int)
    requires ExpireBy(held, nowMs + ttlMs)
    requires forall i :: 0 <= i < |visits| ==> visits[i].atMs <= nowMs
    ensures ExpireBy(AfterVisits(held, visits, ttlMs), nowMs + ttlMs)
  {
    if visits != [] {
      VisitsExpireBy(held, visits[..|visits| - 1], ttlMs, nowMs);
    }
  }

  lemma {:induction false} ChangesExpireBy(held: Held, changes: seq<Change>, me: Node, ttlMs: nat, nowMs: int)
    requires ExpireBy(held, nowMs + ttlMs)
    requires forall i :: 0 <= i < |changes| ==> changes[i].atMs <= nowMs
    ensures ExpireBy(AfterChanges(held, changes, me, ttlMs), nowMs + ttlMs)
  {
    if changes != [] {
      ChangesExpireBy(held, changes[..|changes| - 1], me, ttlMs, nowMs);
    }
  }

  /** Without contact the renewal phase changes nothing but run states. */
  lemma {:induction false} SilenceKeepsExpiry(held: Held, visits: seq<Visit>, ttlMs: nat)
    requires !Reached(held, visits, ttlMs)
    ensures var after := AfterVisits(held, visits, ttlMs);
            after.Keys == held.Keys && forall name :: name in held ==> after[name].expiresMs == held[name].expiresMs
  {
    if visits != [] {
      var n := |visits| - 1;
      assert visits[..n + 1] == visits;
      TriedSoFar(held, visits, n, ttlMs, false);
      SilenceKeepsExpiry(held, visits[..n], ttlMs);
    }
  }

  lemma ContactIsKept(held: Held, visits: seq<Visit>, i: nat, ttlMs: nat)
    requires i <= |visits|
    ensures Reached(held, visits[..i], ttlMs) ==> Reached(held, visits, ttlMs)
  {
    assert forall k :: 0 <= k < i ==> visits[..i][k] == visits[k] && visits[..i][..k] == visits[..k];
  }

  /** A silent pass over a non-empty map is cut short: it acquires nothing. */
  lemma SilenceIsMissed(s: State, r: Round, t: State, ttlMs: nat)
    requires s.held != map[] && Covers(s, r, t) && !Reached(s.held, r.visits, ttlMs)
    ensures Missed(s.held, r.visits, ttlMs)
  {
    var name :| name in s.held;
    var i :| 0 <= i < |r.visits| && r.visits[i].Renewing? && r.visits[i].name == name;
    ContactIsKept(s.held, r.visits, i, ttlMs);
    SilenceKeepsExpiry(s.held, r.visits[..i], ttlMs);
  }

  lemma StepKeepsInv(s: State, r: Round, t: State, me: Node, ttlMs: nat)
    requires Inv(s, ttlMs) && Step(s, r, t, me, ttlMs)
    ensures Inv(t, ttlMs)
    ensures Due(s, r, ttlMs) ==> ExpireBy(AfterVisits(s.held, r.visits, ttlMs), r.endMs)
  {
    var visitTimes := seq(|r.visits|, i requires 0 <= i < |r.visits| => r.visits[i].atMs);
    var changeTimes := seq(|r.changes|, i requires 0 <= i < |r.changes| => r.changes[i].atMs);
    assert forall i :: 0 <= i < |r.visits| ==> r.visits[i].atMs == visitTimes[i];
    assert forall i :: 0 <= i < |r.changes| ==> r.changes[i].atMs == changeTimes[i];
    var renewed := AfterVisits(s.held, r.visits, ttlMs);
    VisitsExpireBy(s.held, r.visits, ttlMs, r.endMs);
    ChangesExpireBy(renewed, r.changes, me, ttlMs, t.nowMs);
    if s.held != map[] && !Reached(s.held, r.visits, ttlMs) {
      SilenceIsMissed(s, r, t, ttlMs);
      SilenceKeepsExpiry(s.held, r.visits, ttlMs);
      assert renewed.Keys != {};
    }
  }

  lemma {:induction false} RunKeepsInv(b: seq<State>, rounds: seq<Round>, me: Node, ttlMs: nat, i: nat)
    requires Run(b, rounds, me, ttlMs) && i < |b|
    ensures Inv(b[i], ttlMs)
  {
    if i > 0 {
      RunKeepsInv(b, rounds, me, ttlMs, i - 1);
      StepKeepsInv(b[i - 1], rounds[i - 1], b[i], me, ttlMs);
    }
  }

  /** When the report fires, every lease it is made for has expired on this node's clock. */
  lemma ReportIsNeverPremature(b: seq<State>, rounds: seq<Round>, me: Node, ttlMs: nat, k: nat)
    requires Run(b, rounds, me, ttlMs) && k < |rounds| && Due(b[k], rounds[k], ttlMs)
    ensures forall name :: name in AfterVisits(b[k].held, rounds[k].visits, ttlMs) ==>
              AfterVisits(b[k].held, rounds[k].visits, ttlMs)[name].ExpiredAt(rounds[k].endMs)
    ensures b[k + 1].held == AfterVisits(b[k].held, rounds[k].visits, ttlMs) != map[]
  {
    RunKeepsInv(b, rounds, me, ttlMs, k);
    StepKeepsInv(b[k], rounds[k], b[k + 1], me, ttlMs);
    SilenceIsMissed(b[k], rounds[k], b[k + 1], ttlMs);
    SilenceKeepsExpiry(b[k].held, rounds[k].visits, ttlMs);
    assert b[k + 1].held.Keys != {};
  }

  /** Rounds `j..k` are out of contact, and round `j` is the first such. */
  ghost predicate Stretch(b: seq<State>, rounds: seq<Round>, ttlMs: nat, j: nat, k: nat)
    requires |b| == |rounds| + 1
  {
    j <= k < |rounds| && b[j].outage.None? &&
    forall i :: j <= i <= k ==> b[i].held != map[] && !Reached(b[i].held, rounds[i].visits, ttlMs)
  }

  lemma {:induction false} EpisodeInStretch(b: seq<State>, rounds: seq<Round>, me: Node, ttlMs: nat, j: nat, k: nat)
    requires Run(b, rounds, me, ttlMs) && Stretch(b, rounds, ttlMs, j, k) && ttlMs > 0
    ensures b[k + 1].outage == Some(Outage(rounds[j].endMs, rounds[k].endMs - rounds[j].endMs >= ttlMs))
    decreases k
  {
    assert Step(b[k], rounds[k], b[k + 1], me, ttlMs);
    if j < k {
      EpisodeInStretch(b, rounds, me, ttlMs, j, k - 1);
      assert Step(b[k - 1], rounds[k - 1], b[k], me, ttlMs);
    }
  }

  lemma DueLaterInStretch(b: seq<State>, rounds: seq<Round>, me: Node, ttlMs: nat, j: nat, k: nat)
    requires Run(b, rounds, me, ttlMs) && Stretch(b, rounds, ttlMs, j, k) && ttlMs > 0 && j < k
    ensures Due(b[k], rounds[k], ttlMs) <==>
              rounds[k].endMs - rounds[j].endMs >= ttlMs && rounds[k - 1].endMs - rounds[j].endMs < ttlMs
  {
    EpisodeInStretch(b, rounds, me, ttlMs, j, k - 1);
  }

  /** Every round from `j` to before `k` ended within the TTL of round `j`'s end. */
  ghost predicate QuietBefore(rounds: seq<Round>, ttlMs: nat, j: nat, k: nat)
    requires k <= |rounds|
  {
    forall i :: j <= i < k ==> rounds[i].endMs - rounds[j].endMs < ttlMs
  }

  lemma QuietUntilLast(b: seq<State>, rounds: seq<Round>, me: Node, ttlMs: nat, j: nat, k: nat)
    requires Run(b, rounds, me, ttlMs) && j < k <= |rounds|
    ensures QuietBefore(rounds, ttlMs, j, k) <==> rounds[k - 1].endMs - rounds[j].endMs < ttlMs
  {
    forall i | j <= i < k
      ensures rounds[i].endMs <= rounds[k - 1].endMs
    {
      EndsAscend(b, rounds, me, ttlMs, i, k - 1);
    }
  }

  /** Within one stretch without contact the report fires exactly at the first round that is
      a full TTL after the stretch's first failure: never twice, and never not at all. */
  lemma ReportFiresExactlyOncePerStretch(b: seq<State>, rounds: seq<Round>, me: Node, ttlMs: nat, j: nat, k: nat)
    requires Run(b, rounds, me, ttlMs) && Stretch(b, rounds, ttlMs, j, k) && ttlMs > 0
    ensures Due(b[k], rounds[k], ttlMs) <==>
              rounds[k].endMs - rounds[j].endMs >= ttlMs && QuietBefore(rounds, ttlMs, j, k)
  {
    if j < k {
      DueLaterInStretch(b, rounds, me, ttlMs, j, k);
      QuietUntilLast(b, rounds, me, ttlMs, j, k);
    }
  }

  lemma {:induction false} EndsAscend(b: seq<State>, rounds: seq<Round>, me: Node, ttlMs: nat, i: nat, k: nat)
    requires Run(b, rounds, me, ttlMs) && i <= k < |rounds|
    ensures rounds[i].endMs <= rounds[k].endMs
    decreases k
  {
    if i < k {
      EndsAscend(b, rounds, me, ttlMs, i, k - 1);
      assert Step(b[k - 1], rounds[k - 1], b[k], me, ttlMs);
      assert Step(b[k], rounds[k], b[k + 1], me, ttlMs);
    }
  }

  /** Outside a stretch nothing fires: a report means its round made no contact. */
  lemma ContactNeverReports(b: seq<State>, rounds: seq<Round>, me: Node, ttlMs: nat, k: nat)
    requires Run(b, rounds, me, ttlMs) && k < |rounds| && ttlMs > 0
    requires Due(b[k], rounds[k], ttlMs)
    ensures exists j :: Stretch(b, rounds, ttlMs, j, k)
  {
    var j := k;
    while b[j].outage.Some?
      invariant 0 <= j <= k
      decreases j
      invariant forall i :: j <= i <= k ==> b[i].held != map[] && !Reached(b[i].held, rounds[i].visits, ttlMs)
    {
      RunKeepsInv(b, rounds, me, ttlMs, j);
      assert Step(b[j - 1], rounds[j - 1], b[j], me, ttlMs);
      if b[j - 1].held == map[] {
        RunKeepsInv(b, rounds, me, ttlMs, j - 1);
        assert false;
      }
      j := j - 1;
    }
    assert Stretch(b, rounds, ttlMs, j, k);
  }
}
