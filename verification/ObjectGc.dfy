/**
 Collecting object bytes (crates/barista-node-agent/src/objects.rs `run_gc` and `commit`,
 capsule_ops.rs export/import) against the journal's reference counts.

 A collection pass reads the collectable digests, then for each removes the bytes and
 drops the row.  Exports commit bytes, then register.  Passes and exports interleave.
 */
module ObjectGc {
  import opened Capsules

  type Task = string

  /** An export in progress: the capsule it will register, and the digests whose bytes it
      has committed so far. */
  datatype Export = Export(row: Capsule, committed: set<Digest>)

  /** `doomed` is what a pass has read as collectable and not yet removed. */
  datatype State = State(
    tables: Tables, bytes: set<Digest>,
    exports: map<Task, Export>, doomed: map<Task, set<Digest>>)

  const Empty := State(Tables(map[], map[]), {}, map[], map[])

  datatype Event =
    | Begin(task: Task, row: Capsule)
    | Commit(task: Task, digest: Digest)
    | Publish(task: Task)
    | Remove(id: CapsuleId)
    | Scan(task: Task)
    | Sweep(task: Task, digest: Digest)
    | Forget(digest: Digest)

  function Digests(row: Capsule): set<Digest> {
    set o | o in row.objects :: o.digest
  }

  predicate Enabled(s: State, e: Event) {
    match e
    case Begin(t, _) => t !in s.exports
    case Commit(t, d) => t in s.exports && d in Digests(s.exports[t].row)
    case Publish(t) => t in s.exports && Digests(s.exports[t].row) <= s.exports[t].committed
    case Sweep(t, d) => t in s.doomed && d in s.doomed[t]
    case _ => true
  }

  /** Committing bytes already present is a no-op on the store; `Sweep` removes the bytes
      whatever the count now says; `Forget` is the guarded row deletion. */
  function Next(s: State, e: Event): State
    requires Enabled(s, e)
  {
    match e
    case Begin(t, row) => s.(exports := s.exports[t := Export(row, {})])
    case Commit(t, d) =>
      s.(bytes := s.bytes + {d},
         exports := s.exports[t := s.exports[t].(committed := s.exports[t].committed + {d})])
    case Publish(t) => s.(tables := Register(s.tables, s.exports[t].row), exports := s.exports - {t})
    case Remove(id) => s.(tables := Delete(s.tables, id))
    case Scan(t) =>
      s.(doomed := s.doomed[t := set d | d in s.tables.refs && Collectable(s.tables.refs, d)])
    case Sweep(t, d) => s.(bytes := s.bytes - {d}, doomed := s.doomed[t := s.doomed[t] - {d}])
    case Forget(d) => s.(tables := FinalizeGc(s.tables, d))
  }

  ghost predicate Run(b: seq<State>, events: seq<Event>) {
    |b| == |events| + 1 && b[0] == Empty &&
    forall i :: 0 <= i < |events| ==> Enabled(b[i], events[i]) && b[i + 1] == Next(b[i], events[i])
  }

  /** Every object a live capsule lists has its bytes. */
  ghost predicate Present(s: State) {
    forall id, o :: id in s.tables.caps && o in s.tables.caps[id].objects ==> o.digest in s.bytes
  }

  /** An export has committed a digest that a pass is about to remove. */
  ghost predicate Clash(s: State) {
    exists t, g, d :: t in s.exports && g in s.doomed && d in s.exports[t].committed && d in s.doomed[g]
  }

  ghost predicate Inv(s: State) {
    && Conserved(s.tables) && Present(s)
    && (forall t, d :: t in s.exports && d in s.exports[t].committed ==> d in s.bytes)
    && (forall g, d :: g in s.doomed && d in s.doomed[g] ==> Listed(s.tables.caps, d) == 0)
  }

  lemma PublishKeepsInv(s: State, t: Task)
    requires Inv(s) && !Clash(s) && Enabled(s, Publish(t))
    ensures Inv(Next(s, Publish(t)))
  {
    var row := s.exports[t].row;
    RegisterConserves(s.tables, row);
    forall g, d | g in s.doomed && d in s.doomed[g]
      ensures Listed(Register(s.tables, row).caps, d) == 0
    {
      if row.id in s.tables.caps {
        ListedIgnoresStorage(s.tables.caps, row.id, row.storage, d);
      } else {
        ListedWith(s.tables.caps, row, d);
        NotMentioned(row.objects, d);
      }
    }
  }

  lemma {:induction false} NotMentioned(objects: seq<Object>, d: Digest)
    ensures Mentions(objects, d) > 0 ==> exists o :: o in objects && o.digest == d
  {
    if objects != [] {
      NotMentioned(objects[..|objects| - 1], d);
    }
  }

  lemma NextKeepsInv(s: State, e: Event)
    requires Inv(s) && !Clash(s) && Enabled(s, e)
    ensures Inv(Next(s, e))
  {
    match e
    case Publish(t) => PublishKeepsInv(s, t);
    case Remove(id) =>
      DeleteConserves(s.tables, id);
      forall g, d | g in s.doomed && d in s.doomed[g]
        ensures Listed(Delete(s.tables, id).caps, d) == 0
      {
        if id in s.tables.caps {
          ListedWithout(s.tables.caps, id, d);
        }
      }
    case Scan(t) =>
      assert forall d :: d in s.tables.refs ==> ConservedAt(s.tables, d);
    case Sweep(g, d) =>
      forall id, o | id in s.tables.caps && o in s.tables.caps[id].objects
        ensures o.digest in s.bytes - {d}
      {
        MentionedIsListed(s.tables.caps, id, o);
      }
    case Forget(d) => FinalizeConserves(s.tables, d);
    case _ =>
  }

  lemma {:induction false} QuietRunKeepsInv(b: seq<State>, events: seq<Event>, i: nat)
    requires Run(b, events) && i < |b| && forall k :: 0 <= k < i ==> !Clash(b[k])
    ensures Inv(b[i])
  {
    if i > 0 {
      QuietRunKeepsInv(b, events, i - 1);
      assert Enabled(b[i - 1], events[i - 1]);
      NextKeepsInv(b[i - 1], events[i - 1]);
    }
  }

  /** As long as no export commits a digest that a collection pass has read and not yet
      removed, every object a live capsule lists keeps its bytes. */
  lemma BytesOutliveTheirReferences(b: seq<State>, events: seq<Event>, i: nat)
    requires Run(b, events) && i < |b| && forall k :: 0 <= k < i ==> !Clash(b[k])
    ensures Present(b[i])
  {
    QuietRunKeepsInv(b, events, i);
  }

  /** And from any such clash, once the export is ready to publish a capsule that is not
      registered yet, two further steps lose the bytes of a live object: the row's guard
      comes too late. */
  lemma ClashLosesBytes(s: State, t: Task, g: Task, d: Digest)
    requires t in s.exports && g in s.doomed && d in s.doomed[g]
    requires Enabled(s, Publish(t)) && s.exports[t].row.id !in s.tables.caps && d in Digests(s.exports[t].row)
    ensures Enabled(Next(s, Publish(t)), Sweep(g, d))
    ensures var r := Next(Next(s, Publish(t)), Sweep(g, d));
            !Present(r) && FinalizeGc(r.tables, d) == Register(s.tables, s.exports[t].row)
  {
    var row := s.exports[t].row;
    var r := Next(Next(s, Publish(t)), Sweep(g, d));
    var o :| o in row.objects && o.digest == d;
    MentionsItsObjects(row.objects, o);
    TakenRefs(s.tables.refs, row.objects, d);
    assert row.id in r.tables.caps && o in r.tables.caps[row.id].objects;
  }

  /** In every reachable state a collection pass over an object that nothing lists reclaims its
      bytes and its row, and nothing else. */
  lemma PassReclaims(b: seq<State>, events: seq<Event>, i: nat, t: Task, d: Digest)
    requires Run(b, events) && i < |b| && d in b[i].tables.refs && Listed(b[i].tables.caps, d) == 0
    ensures Enabled(Next(b[i], Scan(t)), Sweep(t, d))
    ensures var r := Next(Next(Next(b[i], Scan(t)), Sweep(t, d)), Forget(d));
            && r.bytes == b[i].bytes - {d} && r.tables.refs == b[i].tables.refs - {d}
            && r.tables.caps == b[i].tables.caps && r.exports == b[i].exports
  {
    RunConserves(b, events, i);
    assert ConservedAt(b[i].tables, d);
  }

  lemma {:induction false} RunConserves(b: seq<State>, events: seq<Event>, i: nat)
    requires Run(b, events) && i < |b|
    ensures Conserved(b[i].tables)
  {
    if i > 0 {
      RunConserves(b, events, i - 1);
      var s, e := b[i - 1], events[i - 1];
      assert Enabled(s, e) && b[i] == Next(s, e);
      match e
      case Publish(t) => RegisterConserves(s.tables, s.exports[t].row);
      case Remove(id) => DeleteConserves(s.tables, id);
      case Forget(d) => FinalizeConserves(s.tables, d);
      case _ =>
    }
  }

  lemma {:induction false} ListedIsMentioned(caps: Caps, d: Digest)
    requires Listed(caps, d) > 0
    ensures exists id, o :: id in caps && o in caps[id].objects && o.digest == d
    decreases |caps|
  {
    var first :| first in caps && Listed(caps, d) == Mentions(caps[first].objects, d) + Listed(caps - {first}, d);
    if Mentions(caps[first].objects, d) > 0 {
      NotMentioned(caps[first].objects, d);
    } else {
      ListedIsMentioned(caps - {first}, d);
      var id, o :| id in caps - {first} && o in (caps - {first})[id].objects && o.digest == d;
      assert id in caps && o in caps[id].objects;
    }
  }

  /** What loses bytes: removing an object that is referenced by now, or publishing a capsule
      one of whose objects has been removed since it was committed. */
  ghost predicate Loses(s: State, e: Event)
    requires Enabled(s, e)
  {
    match e
    case Sweep(_, d) => d in s.tables.refs && s.tables.refs[d].refcount > 0
    case Publish(t) => s.exports[t].row.id !in s.tables.caps && !(Digests(s.exports[t].row) <= s.bytes)
    case _ => false
  }

  /** The exact condition, step by step of every run: a step leaves a live object without its
      bytes if and only if it is one of those two.  Checking the count again before removing,
      and the bytes again before publishing, would rule out both. */
  lemma StepLosesBytesExactlyWhen(b: seq<State>, events: seq<Event>, i: nat)
    requires Run(b, events) && i < |events| && Present(b[i])
    ensures Enabled(b[i], events[i])
    ensures !Present(b[i + 1]) <==> Loses(b[i], events[i])
  {
    var s, e := b[i], events[i];
    assert Enabled(s, e) && b[i + 1] == Next(s, e);
    RunConserves(b, events, i);
    match e
    case Sweep(g, d) => SweepLosesExactlyWhen(s, g, d);
    case Publish(t) => PublishLosesExactlyWhen(s, t);
    case Remove(id) => assert forall k :: k in Delete(s.tables, id).caps ==> k in s.tables.caps;
    case _ =>
  }

  lemma SweepLosesExactlyWhen(s: State, g: Task, d: Digest)
    requires Conserved(s.tables) && Present(s) && Enabled(s, Sweep(g, d))
    ensures !Present(Next(s, Sweep(g, d))) <==> Loses(s, Sweep(g, d))
  {
    assert ConservedAt(s.tables, d);
    if Listed(s.tables.caps, d) > 0 {
      ListedIsMentioned(s.tables.caps, d);
    } else {
      forall id, o | id in s.tables.caps && o in s.tables.caps[id].objects
        ensures o.digest in s.bytes - {d}
      {
        MentionedIsListed(s.tables.caps, id, o);
      }
    }
  }

  lemma PublishLosesExactlyWhen(s: State, t: Task)
    requires Present(s) && Enabled(s, Publish(t))
    ensures !Present(Next(s, Publish(t))) <==> Loses(s, Publish(t))
  {
    var row := s.exports[t].row;
    var r := Next(s, Publish(t));
    if row.id !in s.tables.caps {
      assert r.tables.caps[row.id] == row;
      if !(Digests(row) <= s.bytes) {
        var o :| o in row.objects && o.digest !in s.bytes;
        assert row.id in r.tables.caps && o in r.tables.caps[row.id].objects;
      }
    } else {
      assert forall id :: id in r.tables.caps ==> id in s.tables.caps && r.tables.caps[id].objects == s.tables.caps[id].objects;
    }
  }

  lemma Extend(b: seq<State>, events: seq<Event>, e: Event) returns (b': seq<State>, events': seq<Event>)
    requires Run(b, events) && Enabled(b[|b| - 1], e)
    ensures Run(b', events') && events' == events + [e] && b' == b + [Next(b[|b| - 1], e)]
  {
    b', events' := b + [Next(b[|b| - 1], e)], events + [e];
  }

  /** A run that gets there: a capsule is deleted, a pass reads its object as collectable,
      and another export of the same object publishes before the pass removes the bytes. */
  lemma ReimportDuringCollection() returns (b: seq<State>, events: seq<Event>)
    ensures Run(b, events) && !Present(b[|b| - 1])
  {
    var one := Capsule("c1", [Object("d", 1)], LocalDir, 1, 0);
    var two := Capsule("c2", [Object("d", 1)], LocalDir, 1, 0);
    assert Digests(one) == {"d"} && Digests(two) == {"d"};
    b, events := [Empty], [];
    b, events := Extend(b, events, Begin("x", one));
    b, events := Extend(b, events, Commit("x", "d"));
    b, events := Extend(b, events, Publish("x"));
    assert b[|b| - 1].tables == Tables(map["c1" := one], map["d" := Ref(1, 1, true, false)]) by {
      assert one.objects[..0] == [];
    }
    b, events := Extend(b, events, Remove("c1"));
    assert b[|b| - 1].tables == Tables(map[], map["d" := Ref(1, 0, true, true)]) by {
      assert one.objects[..0] == [];
    }
    b, events := Extend(b, events, Scan("gc"));
    b, events := Extend(b, events, Begin("y", two));
    b, events := Extend(b, events, Commit("y", "d"));
    ClashLosesBytes(b[|b| - 1], "y", "gc", "d");
    b, events := Extend(b, events, Publish("y"));
    b, events := Extend(b, events, Sweep("gc", "d"));
  }
}
