/**
 Capsules and the references they hold on immutable objects
 (crates/barista-node-agent/src/db.rs, tables `capsules` and `object_refs`).
 */
module Capsules {
  import opened Prelude

  type CapsuleId = string
  type Digest = string

  datatype Object = Object(digest: Digest, length: nat)

  datatype Storage = UnspecifiedTier | LocalDir | ObjectStore

  function TierRank(s: Storage): nat {
    match s
    case UnspecifiedTier => 0
    case LocalDir => 1
    case ObjectStore => 2
  }

  datatype Capsule = Capsule(id: CapsuleId, objects: seq<Object>, storage: Storage, totalSize: nat, createdMs: int)

  datatype Ref = Ref(length: nat, refcount: int, verified: bool, gcPending: bool)

  type Caps = map<CapsuleId, Capsule>
  type Refs = map<Digest, Ref>

  // ---- one statement each ----------------------------------------------------

  function TakeRef(refs: Refs, o: Object): Refs {
    if o.digest in refs
    then refs[o.digest := refs[o.digest].(refcount := refs[o.digest].refcount + 1, verified := true, gcPending := false)]
    else refs[o.digest := Ref(o.length, 1, true, false)]
  }

  function DropRef(refs: Refs, o: Object): Refs {
    if o.digest !in refs then refs
    else
      var r := refs[o.digest];
      refs[o.digest := r.(refcount := if r.refcount - 1 > 0 then r.refcount - 1 else 0,
                          gcPending := if r.refcount - 1 <= 0 then true else r.gcPending)]
  }

  function TakeRefs(refs: Refs, objects: seq<Object>): Refs {
    if objects == [] then refs else TakeRef(TakeRefs(refs, objects[..|objects| - 1]), objects[|objects| - 1])
  }

  function DropRefs(refs: Refs, objects: seq<Object>): Refs {
    if objects == [] then refs else DropRef(DropRefs(refs, objects[..|objects| - 1]), objects[|objects| - 1])
  }

  predicate Collectable(refs: Refs, d: Digest) {
    d in refs && refs[d].gcPending && refs[d].refcount <= 0
  }

  // ---- transactions ----------------------------------------------------------

  datatype Tables = Tables(caps: Caps, refs: Refs)

  function Register(t: Tables, row: Capsule): Tables {
    if row.id in t.caps then
      var existing := t.caps[row.id];
      if TierRank(row.storage) > TierRank(existing.storage)
      then t.(caps := t.caps[row.id := existing.(storage := row.storage)]) else t
    else Tables(t.caps[row.id := row], TakeRefs(t.refs, row.objects))
  }

  function Delete(t: Tables, id: CapsuleId): Tables {
    if id !in t.caps then t
    else Tables(t.caps - {id}, DropRefs(t.refs, t.caps[id].objects))
  }

  function FinalizeGc(t: Tables, d: Digest): Tables {
    if Collectable(t.refs, d) then t.(refs := t.refs - {d}) else t
  }

  class Registry {
    var capsules: Caps
    var objectRefs: Refs
    var snapshots: set<string>

    ghost function Content(): Tables
      reads this
    {
      Tables(capsules, objectRefs)
    }

    constructor ()
      ensures Content() == Tables(map[], map[]) && snapshots == {}
    {
      capsules, objectRefs, snapshots := map[], map[], {};
    }

    method RegisterCapsule(row: Capsule) returns (registered: Capsule)
      modifies this`capsules, this`objectRefs
      ensures Content() == Register(old(Content()), row)
      ensures row.id in capsules && registered == capsules[row.id]
    {
      if row.id in capsules {
        registered := capsules[row.id];
        if TierRank(row.storage) > TierRank(registered.storage) {
          registered := registered.(storage := row.storage);
          capsules := capsules[row.id := registered];
        }
        return;
      }
      capsules := capsules[row.id := row];
      for i := 0 to |row.objects|
        invariant objectRefs == TakeRefs(old(objectRefs), row.objects[..i])
        invariant capsules == old(capsules)[row.id := row]
      {
        assert row.objects[..i + 1][..i] == row.objects[..i];
        objectRefs := TakeRef(objectRefs, row.objects[i]);
      }
      assert row.objects[..|row.objects|] == row.objects;
      registered := row;
    }

    method DeleteCapsule(id: CapsuleId)
      modifies this
      ensures Content() == Delete(old(Content()), id)
      ensures snapshots == if id in old(capsules) then old(snapshots) - {"capsule:" + id} else old(snapshots)
    {
      if id !in capsules {
        return;
      }
      var objects := capsules[id].objects;
      capsules := capsules - {id};
      snapshots := snapshots - {"capsule:" + id};
      for i := 0 to |objects|
        invariant objectRefs == DropRefs(old(objectRefs), objects[..i])
        invariant capsules == old(capsules) - {id} && snapshots == old(snapshots) - {"capsule:" + id}
      {
        assert objects[..i + 1][..i] == objects[..i];
        objectRefs := DropRef(objectRefs, objects[i]);
      }
      assert objects[..|objects|] == objects;
    }

    method CollectableObjects() returns (digests: set<Digest>)
      ensures forall d :: d in digests <==> Collectable(objectRefs, d)
    {
      digests := set d | d in objectRefs && objectRefs[d].gcPending && objectRefs[d].refcount <= 0;
    }

    method FinalizeObjectGc(d: Digest)
      modifies this`objectRefs
      ensures Content() == FinalizeGc(old(Content()), d)
    {
      if d in objectRefs && objectRefs[d].refcount <= 0 && objectRefs[d].gcPending {
        objectRefs := objectRefs - {d};
      }
    }
  }

  // ---------------------------------------------------------------------------
  // Counting
  // ---------------------------------------------------------------------------

  /** How often a manifest lists a digest, and how often all live manifests together do. */
  ghost function Mentions(objects: seq<Object>, d: Digest): nat {
    if objects == [] then 0
    else Mentions(objects[..|objects| - 1], d) + if objects[|objects| - 1].digest == d then 1 else 0
  }

  ghost function Listed(caps: Caps, d: Digest): nat
    decreases |caps|
  {
    if caps == map[] then 0
    else
      var id :| id in caps;
      Mentions(caps[id].objects, d) + Listed(caps - {id}, d)
  }

  lemma {:induction false} ListedWithout(caps: Caps, id: CapsuleId, d: Digest)
    requires id in caps
    ensures Listed(caps, d) == Mentions(caps[id].objects, d) + Listed(caps - {id}, d)
    decreases |caps|
  {
    var first :| first in caps && Listed(caps, d) == Mentions(caps[first].objects, d) + Listed(caps - {first}, d);
    if first != id {
      ListedWithout(caps - {first}, id, d);
      ListedWithout(caps - {id}, first, d);
      assert caps - {first} - {id} == caps - {id} - {first};
    }
  }

  lemma ListedWith(caps: Caps, row: Capsule, d: Digest)
    requires row.id !in caps
    ensures Listed(caps[row.id := row], d) == Listed(caps, d) + Mentions(row.objects, d)
  {
    ListedWithout(caps[row.id := row], row.id, d);
    assert caps[row.id := row] - {row.id} == caps;
  }

  /** Only the storage differs. */
  lemma {:induction false} ListedIgnoresStorage(caps: Caps, id: CapsuleId, storage: Storage, d: Digest)
    requires id in caps
    ensures Listed(caps[id := caps[id].(storage := storage)], d) == Listed(caps, d)
  {
    var caps' := caps[id := caps[id].(storage := storage)];
    ListedWithout(caps, id, d);
    ListedWithout(caps', id, d);
    assert caps - {id} == caps' - {id};
  }

  lemma {:induction false} TakenRefs(refs: Refs, objects: seq<Object>, d: Digest)
    ensures Mentions(objects, d) == 0 ==> (d in TakeRefs(refs, objects) <==> d in refs)
    ensures Mentions(objects, d) == 0 && d in refs ==> TakeRefs(refs, objects)[d] == refs[d]
    ensures Mentions(objects, d) > 0 ==>
              && d in TakeRefs(refs, objects)
              && TakeRefs(refs, objects)[d].refcount == (if d in refs then refs[d].refcount else 0) + Mentions(objects, d)
              && TakeRefs(refs, objects)[d].verified && !TakeRefs(refs, objects)[d].gcPending
              && (d in refs ==> TakeRefs(refs, objects)[d].length == refs[d].length)
              && (d !in refs ==> Object(d, TakeRefs(refs, objects)[d].length) in objects)
  {
    if objects != [] {
      TakenRefs(refs, objects[..|objects| - 1], d);
    }
  }

  /** Dropping no more references than are held: the count falls by exactly that many, so
      the clamp at zero changes nothing, and the intent is set exactly on reaching zero. */
  lemma {:induction false} DroppedRefs(refs: Refs, objects: seq<Object>, d: Digest)
    requires Mentions(objects, d) > 0 ==> d in refs && refs[d].refcount >= Mentions(objects, d)
    requires d in refs ==> refs[d].refcount >= 0 && (refs[d].gcPending <==> refs[d].refcount == 0)
    ensures d in DropRefs(refs, objects) <==> d in refs
    ensures d in refs ==>
              && DropRefs(refs, objects)[d].refcount == refs[d].refcount - Mentions(objects, d)
              && (DropRefs(refs, objects)[d].gcPending <==> DropRefs(refs, objects)[d].refcount == 0)
              && DropRefs(refs, objects)[d].length == refs[d].length
              && DropRefs(refs, objects)[d].verified == refs[d].verified
  {
    if objects != [] {
      DroppedRefs(refs, objects[..|objects| - 1], d);
    }
  }

  /** Each reference count is the number of times live manifests list the object, and the
      collection intent is set exactly when that number is zero. */
  ghost predicate ConservedAt(t: Tables, d: Digest) {
    if d in t.refs
    then t.refs[d].refcount == Listed(t.caps, d) && (t.refs[d].gcPending <==> Listed(t.caps, d) == 0)
    else Listed(t.caps, d) == 0
  }

  ghost predicate Conserved(t: Tables) {
    (forall d :: ConservedAt(t, d)) && forall id :: id in t.caps ==> t.caps[id].id == id
  }

  lemma RegisterConserves(t: Tables, row: Capsule)
    requires Conserved(t)
    ensures Conserved(Register(t, row))
  {
    forall d
      ensures ConservedAt(Register(t, row), d)
    {
      assert ConservedAt(t, d);
      if row.id in t.caps {
        ListedIgnoresStorage(t.caps, row.id, row.storage, d);
      } else {
        ListedWith(t.caps, row, d);
        TakenRefs(t.refs, row.objects, d);
      }
    }
  }

  lemma DeleteConserves(t: Tables, id: CapsuleId)
    requires Conserved(t)
    ensures Conserved(Delete(t, id))
  {
    forall d
      ensures ConservedAt(Delete(t, id), d)
    {
      assert ConservedAt(t, d);
      if id in t.caps {
        ListedWithout(t.caps, id, d);
        DroppedRefs(t.refs, t.caps[id].objects, d);
      }
    }
  }

  lemma FinalizeConserves(t: Tables, d: Digest)
    requires Conserved(t)
    ensures Conserved(FinalizeGc(t, d))
  {
    forall e
      ensures ConservedAt(FinalizeGc(t, d), e)
    {
      assert ConservedAt(t, e);
    }
  }

  // ---------------------------------------------------------------------------
  // Runs
  // ---------------------------------------------------------------------------

  datatype Action = Registering(row: Capsule) | Deleting(id: CapsuleId) | Finalizing(digest: Digest)

  function Apply(t: Tables, a: Action): Tables {
    match a
    case Registering(row) => Register(t, row)
    case Deleting(id) => Delete(t, id)
    case Finalizing(d) => FinalizeGc(t, d)
  }

  function After(actions: seq<Action>): Tables {
    if actions == [] then Tables(map[], map[])
    else Apply(After(actions[..|actions| - 1]), actions[|actions| - 1])
  }

  lemma ApplyConserves(t: Tables, a: Action)
    requires Conserved(t)
    ensures Conserved(Apply(t, a))
  {
    match a
    case Registering(row) => RegisterConserves(t, row);
    case Deleting(id) => DeleteConserves(t, id);
    case Finalizing(d) => FinalizeConserves(t, d);
  }

  /** Reference conservation over every sequence of registrations, deletions and
      finalizations (each one transaction, so a crash falls between two of them). */
  lemma {:induction false} ReferencesAreConserved(actions: seq<Action>)
    ensures Conserved(After(actions))
  {
    if actions != [] {
      ReferencesAreConserved(actions[..|actions| - 1]);
      ApplyConserves(After(actions[..|actions| - 1]), actions[|actions| - 1]);
    }
  }

  lemma {:induction false} MentionedIsListed(caps: Caps, id: CapsuleId, o: Object)
    requires id in caps && o in caps[id].objects
    ensures Listed(caps, o.digest) > 0
  {
    ListedWithout(caps, id, o.digest);
    MentionsItsObjects(caps[id].objects, o);
  }

  lemma {:induction false} MentionsItsObjects(objects: seq<Object>, o: Object)
    requires o in objects
    ensures Mentions(objects, o.digest) > 0
  {
    if objects[|objects| - 1] != o {
      MentionsItsObjects(objects[..|objects| - 1], o);
    }
  }

  /** No object a live capsule lists is ever collectable, dropped, or without its row. */
  lemma LiveObjectsAreNeverCollectable(actions: seq<Action>, id: CapsuleId, o: Object)
    requires id in After(actions).caps && o in After(actions).caps[id].objects
    ensures var t := After(actions);
            && o.digest in t.refs && t.refs[o.digest].refcount > 0
            && !Collectable(t.refs, o.digest) && FinalizeGc(t, o.digest) == t
  {
    ReferencesAreConserved(actions);
    MentionedIsListed(After(actions).caps, id, o);
    assert ConservedAt(After(actions), o.digest);
  }

  /** Conversely an object with a row that nothing lists is collectable: nothing leaks. */
  lemma UnlistedRowsAreCollectable(actions: seq<Action>, d: Digest)
    requires d in After(actions).refs && Listed(After(actions).caps, d) == 0
    ensures Collectable(After(actions).refs, d) && d !in FinalizeGc(After(actions), d).refs
  {
    ReferencesAreConserved(actions);
    assert ConservedAt(After(actions), d);
  }

  /** Each decrement of a deletion starts from a positive count: the clamp never fires. */
  lemma ClampNeverFires(actions: seq<Action>, id: CapsuleId, i: nat)
    requires id in After(actions).caps && i < |After(actions).caps[id].objects|
    ensures var t := After(actions);
            var objects := t.caps[id].objects;
            var midway := DropRefs(t.refs, objects[..i]);
            objects[i].digest in midway && midway[objects[i].digest].refcount >= 1
  {
    var t := After(actions);
    var objects := t.caps[id].objects;
    var d := objects[i].digest;
    ReferencesAreConserved(actions);
    assert ConservedAt(t, d);
    ListedWithout(t.caps, id, d);
    PrefixMentions(objects, i, d);
    DroppedRefs(t.refs, objects[..i], d);
  }

  lemma {:induction false} PrefixMentions(objects: seq<Object>, i: nat, d: Digest)
    requires i < |objects|
    ensures Mentions(objects[..i], d) + (if objects[i].digest == d then 1 else 0) <= Mentions(objects, d)
  {
    var last := |objects| - 1;
    if i < last {
      PrefixMentions(objects[..last], i, d);
      assert objects[..last][..i] == objects[..i];
    }
  }

  // ---- replays and tiers -----------------------------------------------------

  /** Registering again, or deleting what is absent, touches no reference. */
  lemma ReplaysTouchNoReference(t: Tables, row: Capsule, id: CapsuleId)
    ensures row.id in t.caps ==> Register(t, row).refs == t.refs && Register(Register(t, row), row) == Register(t, row)
    ensures id !in t.caps ==> Delete(t, id) == t
    ensures Delete(Delete(t, id), id) == Delete(t, id)
  {
  }

  /** The row a capsule was first registered with since it was last deleted. */
  ghost function Inserted(actions: seq<Action>, id: CapsuleId): Option<Capsule> {
    if actions == [] then None
    else
      var before, a := actions[..|actions| - 1], actions[|actions| - 1];
      if a == Deleting(id) then None
      else if a.Registering? && a.row.id == id && Inserted(before, id).None? then Some(a.row)
      else Inserted(before, id)
  }

  /** After any sequence a live capsule is, its storage aside, the row it was first registered
      with: no repeat changes what it lists. */
  lemma {:induction false} CapsulesAreImmutable(actions: seq<Action>, id: CapsuleId)
    ensures id in After(actions).caps <==> Inserted(actions, id).Some?
    ensures id in After(actions).caps ==>
              var row, first := After(actions).caps[id], Inserted(actions, id).value;
              && row.id == first.id == id && row.objects == first.objects
              && row.totalSize == first.totalSize && row.createdMs == first.createdMs
  {
    if actions != [] {
      CapsulesAreImmutable(actions[..|actions| - 1], id);
    }
  }

  /** The tiers a capsule was registered at since it was last inserted. */
  ghost function Offers(actions: seq<Action>, id: CapsuleId): seq<Storage> {
    if actions == [] then []
    else
      var before, a := actions[..|actions| - 1], actions[|actions| - 1];
      if a == Deleting(id) then []
      else if a.Registering? && a.row.id == id then Offers(before, id) + [a.row.storage]
      else Offers(before, id)
  }

  /** A live capsule's recorded storage is the strongest of those, and a capsule is live
      exactly if there are any. */
  lemma {:induction false} StorageIsTheStrongestOffered(actions: seq<Action>, id: CapsuleId)
    ensures id in After(actions).caps <==> Offers(actions, id) != []
    ensures id in After(actions).caps ==>
              && After(actions).caps[id].storage in Offers(actions, id)
              && (ObjectStore in Offers(actions, id) ==> After(actions).caps[id].storage == ObjectStore)
              && (LocalDir in Offers(actions, id) ==> After(actions).caps[id].storage != UnspecifiedTier)
              && forall s :: s in Offers(actions, id) ==> TierRank(s) <= TierRank(After(actions).caps[id].storage)
  {
    if actions != [] {
      StorageIsTheStrongestOffered(actions[..|actions| - 1], id);
    }
  }
}
