/**
 The canonical byte stream of a capsule manifest (crates/barista-node-agent/src/capsule.rs,
 `feed` and `canonical_bytes`), before it is hashed.
 */
module Manifest {
  import opened Prelude

  const U32 := 0x1_0000_0000
  const U64 := 0x1_0000_0000_0000_0000

  type Byte = x: int | 0 <= x < 256
  type Text = s: seq<Byte> | |s| < U64 witness []
  type Texts = s: seq<Text> | |s| < U64 witness []
  type Objects = s: seq<Object> | |s| < U64 witness []
  type I32 = x: int | -0x8000_0000 <= x < 0x8000_0000
  type I64 = x: int | -0x8000_0000_0000_0000 <= x < 0x8000_0000_0000_0000
  type Length = x: int | 0 <= x < U64

  datatype Timestamp = Timestamp(seconds: I64, nanos: I32)

  datatype Object = Object(digest: Text, length: Length, kind: I32, mediaType: Text)

  datatype Capsule = Capsule(
    schemaVersion: Text, cpuClass: Text, templateHash: Text, runtimeBundleRef: Text, kind: I32, lineageId: Text,
    architecture: Text, createdAt: Option<Timestamp>, capabilities: Texts, objects: Objects)

  function Created(m: Capsule): Timestamp {
    if m.createdAt.Some? then m.createdAt.value else Timestamp(0, 0)
  }

  // ---------------------------------------------------------------------------
  // Order
  // ---------------------------------------------------------------------------

  /** Bytewise, as strings compare. */
  predicate TextLe(a: seq<Byte>, b: seq<Byte>) {
    a == [] || (b != [] && (a[0] < b[0] || (a[0] == b[0] && TextLe(a[1..], b[1..]))))
  }

  /** By digest, then type, then media type, then length. */
  predicate ObjectLe(a: Object, b: Object) {
    if a.digest != b.digest then TextLe(a.digest, b.digest)
    else if a.kind != b.kind then a.kind < b.kind
    else if a.mediaType != b.mediaType then TextLe(a.mediaType, b.mediaType)
    else a.length <= b.length
  }

  ghost predicate Total<T(!new)>(le: (T, T) -> bool) {
    && (forall x, y :: le(x, y) || le(y, x))
    && (forall x, y :: le(x, y) && le(y, x) ==> x == y)
    && (forall x, y, z :: le(x, y) && le(y, z) ==> le(x, z))
  }

  predicate Sorted<T>(s: seq<T>, le: (T, T) -> bool) {
    forall i, j :: 0 <= i < j < |s| ==> le(s[i], s[j])
  }

  function Insert<T>(x: T, s: seq<T>, le: (T, T) -> bool): (r: seq<T>)
    ensures |r| == |s| + 1
  {
    if s == [] || le(x, s[0]) then [x] + s else [s[0]] + Insert(x, s[1..], le)
  }

  function Sort<T>(s: seq<T>, le: (T, T) -> bool): (r: seq<T>)
    ensures |r| == |s|
  {
    if s == [] then [] else Insert(s[0], Sort(s[1..], le), le)
  }

  lemma {:induction false} InsertPermutes<T>(x: T, s: seq<T>, le: (T, T) -> bool)
    ensures multiset(Insert(x, s, le)) == multiset{x} + multiset(s)
  {
    if s != [] {
      assert s == [s[0]] + s[1..];
      InsertPermutes(x, s[1..], le);
    }
  }

  lemma {:induction false} InsertSorts<T(!new)>(x: T, s: seq<T>, le: (T, T) -> bool)
    requires Total(le) && Sorted(s, le)
    ensures Sorted(Insert(x, s, le), le)
  {
    if s != [] && !le(x, s[0]) {
      var rest := Insert(x, s[1..], le);
      InsertSorts(x, s[1..], le);
      InsertPermutes(x, s[1..], le);
      forall k | 0 <= k < |rest|
        ensures le(s[0], rest[k])
      {
        assert rest[k] in multiset(rest);
        if rest[k] != x {
          assert rest[k] in s[1..];
        }
      }
    } else if s != [] {
      forall k | 0 <= k < |s|
        ensures le(x, s[k])
      {
        assert k == 0 || le(s[0], s[k]);
      }
    }
  }

  lemma {:induction false} SortSorts<T(!new)>(s: seq<T>, le: (T, T) -> bool)
    requires Total(le)
    ensures Sorted(Sort(s, le), le) && multiset(Sort(s, le)) == multiset(s)
  {
    if s != [] {
      SortSorts(s[1..], le);
      InsertSorts(s[0], Sort(s[1..], le), le);
      InsertPermutes(s[0], Sort(s[1..], le), le);
      assert s == [s[0]] + s[1..];
    }
  }

  lemma FirstIsLeast<T(!new)>(s: seq<T>, x: T, le: (T, T) -> bool)
    requires Total(le) && Sorted(s, le) && x in multiset(s)
    ensures le(s[0], x)
  {
    assert x in s;
    var i :| 0 <= i < |s| && s[i] == x;
    assert i == 0 || le(s[0], s[i]);
    assert le(x, x) || le(x, x);
  }

  /** A multiset has one sorted listing. */
  lemma {:induction false} SortedIsUnique<T(!new)>(a: seq<T>, b: seq<T>, le: (T, T) -> bool)
    requires Total(le) && Sorted(a, le) && Sorted(b, le) && multiset(a) == multiset(b)
    ensures a == b
  {
    assert |a| == |multiset(a)| && |b| == |multiset(b)|;
    if a != [] {
      assert a[0] in multiset(a) && b[0] in multiset(b);
      FirstIsLeast(b, a[0], le);
      FirstIsLeast(a, b[0], le);
      assert a == [a[0]] + a[1..] && b == [b[0]] + b[1..];
      assert multiset(a[1..]) == multiset(a) - multiset{a[0]};
      assert multiset(b[1..]) == multiset(b) - multiset{b[0]};
      SortedIsUnique(a[1..], b[1..], le);
    }
  }

  /** So sorting forgets exactly the order. */
  lemma SortIsCanonical<T(!new)>(a: seq<T>, b: seq<T>, le: (T, T) -> bool)
    requires Total(le)
    ensures Sort(a, le) == Sort(b, le) <==> multiset(a) == multiset(b)
  {
    SortSorts(a, le);
    SortSorts(b, le);
    if multiset(a) == multiset(b) {
      SortedIsUnique(Sort(a, le), Sort(b, le), le);
    }
  }

  lemma {:induction false} TextLeOrders(a: seq<Byte>, b: seq<Byte>)
    ensures TextLe(a, b) || TextLe(b, a)
    ensures TextLe(a, b) && TextLe(b, a) ==> a == b
  {
    if a != [] && b != [] && a[0] == b[0] {
      TextLeOrders(a[1..], b[1..]);
      assert a == [a[0]] + a[1..] && b == [b[0]] + b[1..];
    }
  }

  lemma {:induction false} TextLeTransitive(a: seq<Byte>, b: seq<Byte>, c: seq<Byte>)
    requires TextLe(a, b) && TextLe(b, c)
    ensures TextLe(a, c)
  {
    if a != [] && a[0] == b[0] && b[0] == c[0] {
      TextLeTransitive(a[1..], b[1..], c[1..]);
    }
  }

  lemma ObjectLeOrders(a: Object, b: Object)
    ensures ObjectLe(a, b) || ObjectLe(b, a)
    ensures ObjectLe(a, b) && ObjectLe(b, a) ==> a == b
  {
    TextLeOrders(a.digest, b.digest);
    TextLeOrders(a.mediaType, b.mediaType);
  }

  lemma ObjectLeTransitive(a: Object, b: Object, c: Object)
    requires ObjectLe(a, b) && ObjectLe(b, c)
    ensures ObjectLe(a, c)
  {
    if a.digest != b.digest && b.digest != c.digest {
      TextLeTransitive(a.digest, b.digest, c.digest);
      TextLeOrders(a.digest, b.digest);
    } else if a.mediaType != b.mediaType && b.mediaType != c.mediaType && a.digest == b.digest == c.digest
              && a.kind == b.kind == c.kind {
      TextLeTransitive(a.mediaType, b.mediaType, c.mediaType);
      TextLeOrders(a.mediaType, b.mediaType);
    }
  }

  lemma TextOrderIsTotal()
    ensures Total((a: Text, b: Text) => TextLe(a, b))
  {
    forall a: Text, b: Text
      ensures (TextLe(a, b) || TextLe(b, a)) && (TextLe(a, b) && TextLe(b, a) ==> a == b)
    {
      TextLeOrders(a, b);
    }
    forall a: Text, b: Text, c: Text | TextLe(a, b) && TextLe(b, c)
      ensures TextLe(a, c)
    {
      TextLeTransitive(a, b, c);
    }
  }

  lemma ObjectOrderIsTotal()
    ensures Total(ObjectLe)
  {
    forall a, b
      ensures (ObjectLe(a, b) || ObjectLe(b, a)) && (ObjectLe(a, b) && ObjectLe(b, a) ==> a == b)
    {
      ObjectLeOrders(a, b);
    }
    forall a, b, c | ObjectLe(a, b) && ObjectLe(b, c)
      ensures ObjectLe(a, c)
    {
      ObjectLeTransitive(a, b, c);
    }
  }

  // ---------------------------------------------------------------------------
  // The stream
  // ---------------------------------------------------------------------------

  /** Little-endian bytes. */
  function Little(n: nat, width: nat): (r: seq<Byte>)
    ensures |r| == width
  {
    if width == 0 then [] else [n % 256] + Little(n / 256, width - 1)
  }

  function Bits32(x: I32): nat {
    if x >= 0 then x else x + U32
  }

  function Bits64(x: I64): nat {
    if x >= 0 then x else x + U64
  }

  /** A part behind its length. */
  function Fed(part: Text): seq<Byte> {
    Little(|part|, 8) + part
  }

  function Feeds(parts: seq<Text>): seq<Byte> {
    if parts == [] then [] else Feeds(parts[..|parts| - 1]) + Fed(parts[|parts| - 1])
  }

  /** The fixed fields, in their fixed order. */
  function Header(m: Capsule): (r: seq<Text>)
    ensures |r| == 9
  {
    [m.schemaVersion, m.cpuClass, m.templateHash, m.runtimeBundleRef, Little(Bits32(m.kind), 4), m.lineageId,
     m.architecture, Little(Bits64(Created(m).seconds), 8), Little(Bits32(Created(m).nanos), 4)]
  }

  function ObjectParts(o: Object): (r: seq<Text>)
    ensures |r| == 4
  {
    [o.digest, Little(o.length, 8), Little(Bits32(o.kind), 4), o.mediaType]
  }

  function AllParts(objects: seq<Object>): (r: seq<Text>)
    ensures |r| == 4 * |objects|
  {
    if objects == [] then [] else AllParts(objects[..|objects| - 1]) + ObjectParts(objects[|objects| - 1])
  }

  function SortedCapabilities(m: Capsule): (r: Texts)
    ensures |r| == |m.capabilities|
  {
    Sort(m.capabilities, (a: Text, b: Text) => TextLe(a, b))
  }

  function SortedObjects(m: Capsule): (r: Objects)
    ensures |r| == |m.objects|
  {
    Sort(m.objects, ObjectLe)
  }

  /** Each list behind its count. */
  function Lists(capabilities: Texts, objects: Objects): seq<Byte> {
    Little(|capabilities|, 8) + (Feeds(capabilities) + (Little(|objects|, 8) + Feeds(AllParts(objects))))
  }

  function Stream(m: Capsule): seq<Byte> {
    Feeds(Header(m)) + Lists(SortedCapabilities(m), SortedObjects(m))
  }

  /** The running hash, as what it has been given. */
  class Hasher {
    var given: seq<Byte>

    constructor ()
      ensures given == []
    {
      given := [];
    }

    method Update(bytes: seq<Byte>)
      modifies this
      ensures given == old(given) + bytes
    {
      given := given + bytes;
    }

    method Feed(part: Text)
      modifies this
      ensures given == old(given) + Fed(part)
    {
      Update(Little(|part|, 8));
      Update(part);
    }

    method FeedAll(parts: seq<Text>)
      modifies this
      ensures given == old(given) + Feeds(parts)
    {
      for i := 0 to |parts|
        invariant given == old(given) + Feeds(parts[..i])
      {
        assert parts[..i + 1][..i] == parts[..i];
        Feed(parts[i]);
        Joins(old(given), Feeds(parts[..i]), Fed(parts[i]));
      }
      assert parts[..|parts|] == parts;
    }
  }

  method FeedHeader(m: Capsule) returns (h: Hasher)
    ensures fresh(h) && h.given == Feeds(Header(m))
  {
    h := new Hasher();
    var created := if m.createdAt.Some? then m.createdAt.value else Timestamp(0, 0);
    var fields: seq<Text> :=
      [m.schemaVersion, m.cpuClass, m.templateHash, m.runtimeBundleRef, Little(Bits32(m.kind), 4), m.lineageId,
       m.architecture, Little(Bits64(created.seconds), 8), Little(Bits32(created.nanos), 4)];
    h.FeedAll(fields);
    assert [] + Feeds(fields) == Feeds(fields);
  }

  method FeedObject(h: Hasher, o: Object)
    modifies h
    ensures h.given == old(h.given) + Feeds(ObjectParts(o))
  {
    var parts: seq<Text> := [o.digest, Little(o.length, 8), Little(Bits32(o.kind), 4), o.mediaType];
    h.FeedAll(parts);
  }

  method FeedObjects(h: Hasher, objects: seq<Object>)
    modifies h
    ensures h.given == old(h.given) + Feeds(AllParts(objects))
  {
    for i := 0 to |objects|
      invariant h.given == old(h.given) + Feeds(AllParts(objects[..i]))
    {
      FeedsNext(objects, i);
      FeedObject(h, objects[i]);
      Joins(old(h.given), Feeds(AllParts(objects[..i])), Feeds(ObjectParts(objects[i])));
    }
    assert objects[..|objects|] == objects;
  }

  method FeedLists(h: Hasher, capabilities: Texts, objects: Objects)
    modifies h
    ensures h.given == old(h.given) + Lists(capabilities, objects)
  {
    h.Update(Little(|capabilities|, 8));
    h.FeedAll(capabilities);
    h.Update(Little(|objects|, 8));
    FeedObjects(h, objects);
    Nests(old(h.given), Little(|capabilities|, 8), Feeds(capabilities), Little(|objects|, 8), Feeds(AllParts(objects)));
  }

  method CanonicalBytes(m: Capsule) returns (h: Hasher)
    ensures fresh(h) && h.given == Stream(m)
  {
    h := FeedHeader(m);
    FeedLists(h, SortedCapabilities(m), SortedObjects(m));
  }

  lemma Joins(a: seq<Byte>, b: seq<Byte>, c: seq<Byte>)
    ensures (a + b) + c == a + (b + c)
  {
  }

  lemma Nests(a: seq<Byte>, b: seq<Byte>, c: seq<Byte>, d: seq<Byte>, e: seq<Byte>)
    ensures a + b + c + d + e == a + (b + (c + (d + e)))
    ensures (a + (b + (c + d))) + e == a + (b + (c + (d + e)))
  {
  }

  lemma FeedsNext(objects: seq<Object>, i: nat)
    requires i < |objects|
    ensures Feeds(AllParts(objects[..i + 1])) == Feeds(AllParts(objects[..i])) + Feeds(ObjectParts(objects[i]))
  {
    assert objects[..i + 1][..i] == objects[..i];
    FeedsJoin(AllParts(objects[..i]), ObjectParts(objects[i]));
  }

  lemma {:induction false} FeedsJoin(a: seq<Text>, b: seq<Text>)
    ensures Feeds(a + b) == Feeds(a) + Feeds(b)
  {
    if b == [] {
      assert a + b == a;
    } else {
      var n := |b| - 1;
      assert (a + b)[..|a + b| - 1] == a + b[..n];
      FeedsJoin(a, b[..n]);
      Joins(Feeds(a), Feeds(b[..n]), Fed(b[n]));
    }
  }

  // ---------------------------------------------------------------------------
  // Reading it back
  // ---------------------------------------------------------------------------

  function Range(width: nat): (r: nat)
    ensures r > 0
  {
    if width == 0 then 1 else Range(width - 1) * 256
  }

  lemma Ranges()
    ensures Range(4) == U32 && Range(8) == U64
  {
    assert Range(2) == 0x1_0000;
    assert Range(4) == U32;
    assert Range(6) == 0x1_0000_0000_0000;
  }

  lemma {:induction false} LittleIsInjective(a: nat, b: nat, width: nat)
    requires a < Range(width) && b < Range(width) && Little(a, width) == Little(b, width)
    ensures a == b
  {
    if width > 0 {
      var x, y := Little(a, width), Little(b, width);
      assert x[0] == y[0] && x[1..] == Little(a / 256, width - 1) && y[1..] == Little(b / 256, width - 1);
      LittleIsInjective(a / 256, b / 256, width - 1);
    }
  }

  lemma Splits(a: seq<Byte>, b: seq<Byte>, x: seq<Byte>, y: seq<Byte>)
    requires |a| == |b| && a + x == b + y
    ensures a == b && x == y
  {
    assert a == (a + x)[..|a|] && b == (b + y)[..|b|];
    assert x == (a + x)[|a|..] && y == (b + y)[|b|..];
  }

  lemma CountSplits(m: Length, n: Length, x: seq<Byte>, y: seq<Byte>)
    requires Little(m, 8) + x == Little(n, 8) + y
    ensures m == n && x == y
  {
    Splits(Little(m, 8), Little(n, 8), x, y);
    Ranges();
    LittleIsInjective(m, n, 8);
  }

  /** No fed part is a prefix of another: whatever follows, the parts are told apart. */
  lemma FedSplits(a: Text, b: Text, x: seq<Byte>, y: seq<Byte>)
    requires Fed(a) + x == Fed(b) + y
    ensures a == b && x == y
  {
    Joins(Little(|a|, 8), a, x);
    Joins(Little(|b|, 8), b, y);
    CountSplits(|a|, |b|, a + x, b + y);
    Splits(a, b, x, y);
  }

  lemma {:induction false} FeedsSplit(a: seq<Text>, b: seq<Text>, x: seq<Byte>, y: seq<Byte>)
    requires |a| == |b| && Feeds(a) + x == Feeds(b) + y
    ensures a == b && x == y
  {
    if a != [] {
      var n := |a| - 1;
      Joins(Feeds(a[..n]), Fed(a[n]), x);
      Joins(Feeds(b[..n]), Fed(b[n]), y);
      FeedsSplit(a[..n], b[..n], Fed(a[n]) + x, Fed(b[n]) + y);
      FedSplits(a[n], b[n], x, y);
      assert a == a[..n] + [a[n]] && b == b[..n] + [b[n]];
    } else {
      assert Feeds(a) + x == x && Feeds(b) + y == y;
    }
  }

  lemma Bits32IsInjective(a: I32, b: I32)
    requires Little(Bits32(a), 4) == Little(Bits32(b), 4)
    ensures a == b
  {
    Ranges();
    LittleIsInjective(Bits32(a), Bits32(b), 4);
  }

  lemma Bits64IsInjective(a: I64, b: I64)
    requires Little(Bits64(a), 8) == Little(Bits64(b), 8)
    ensures a == b
  {
    Ranges();
    LittleIsInjective(Bits64(a), Bits64(b), 8);
  }

  lemma ObjectPartsAreInjective(a: Object, b: Object)
    requires ObjectParts(a) == ObjectParts(b)
    ensures a == b
  {
    var p, q := ObjectParts(a), ObjectParts(b);
    assert p[0] == q[0] && p[1] == q[1] && p[2] == q[2] && p[3] == q[3];
    Ranges();
    LittleIsInjective(a.length, b.length, 8);
    Bits32IsInjective(a.kind, b.kind);
  }

  lemma {:induction false} AllPartsAreInjective(a: seq<Object>, b: seq<Object>)
    requires |a| == |b| && AllParts(a) == AllParts(b)
    ensures a == b
  {
    if a != [] {
      var n := |a| - 1;
      var p, q := AllParts(a), AllParts(b);
      assert p[..4 * n] == AllParts(a[..n]) && q[..4 * n] == AllParts(b[..n]);
      assert p[4 * n..] == ObjectParts(a[n]) && q[4 * n..] == ObjectParts(b[n]);
      AllPartsAreInjective(a[..n], b[..n]);
      ObjectPartsAreInjective(a[n], b[n]);
      assert a == a[..n] + [a[n]] && b == b[..n] + [b[n]];
    }
  }

  /** The same capsule: every field, with capabilities and objects in any order and an absent
      creation time read as zero. */
  ghost predicate Same(a: Capsule, b: Capsule) {
    && a.schemaVersion == b.schemaVersion && a.cpuClass == b.cpuClass && a.templateHash == b.templateHash
    && a.runtimeBundleRef == b.runtimeBundleRef && a.kind == b.kind && a.lineageId == b.lineageId
    && a.architecture == b.architecture && Created(a) == Created(b)
    && multiset(a.capabilities) == multiset(b.capabilities) && multiset(a.objects) == multiset(b.objects)
  }

  lemma SameHeader(a: Capsule, b: Capsule)
    requires Header(a) == Header(b)
    ensures a.schemaVersion == b.schemaVersion && a.cpuClass == b.cpuClass && a.templateHash == b.templateHash
    ensures a.runtimeBundleRef == b.runtimeBundleRef && a.kind == b.kind && a.lineageId == b.lineageId
    ensures a.architecture == b.architecture && Created(a) == Created(b)
  {
    var p, q := Header(a), Header(b);
    assert p[0] == q[0] && p[1] == q[1] && p[2] == q[2] && p[3] == q[3] && p[4] == q[4];
    assert p[5] == q[5] && p[6] == q[6] && p[7] == q[7] && p[8] == q[8];
    Bits32IsInjective(a.kind, b.kind);
    Bits64IsInjective(Created(a).seconds, Created(b).seconds);
    Bits32IsInjective(Created(a).nanos, Created(b).nanos);
  }

  lemma SameSorted(a: Capsule, b: Capsule)
    ensures SortedCapabilities(a) == SortedCapabilities(b) <==> multiset(a.capabilities) == multiset(b.capabilities)
    ensures SortedObjects(a) == SortedObjects(b) <==> multiset(a.objects) == multiset(b.objects)
  {
    TextOrderIsTotal();
    ObjectOrderIsTotal();
    SortIsCanonical(a.capabilities, b.capabilities, (x: Text, y: Text) => TextLe(x, y));
    SortIsCanonical(a.objects, b.objects, ObjectLe);
  }

  lemma ListsSplit(c: Texts, d: Texts, o: Objects, p: Objects, x: seq<Byte>, y: seq<Byte>)
    requires Lists(c, o) + x == Lists(d, p) + y
    ensures c == d && o == p && x == y
  {
    var co, dp := Feeds(AllParts(o)), Feeds(AllParts(p));
    Nests(Little(|c|, 8), Feeds(c), Little(|o|, 8), co, x);
    Nests(Little(|d|, 8), Feeds(d), Little(|p|, 8), dp, y);
    CountSplits(|c|, |d|, Feeds(c) + (Little(|o|, 8) + (co + x)), Feeds(d) + (Little(|p|, 8) + (dp + y)));
    FeedsSplit(c, d, Little(|o|, 8) + (co + x), Little(|p|, 8) + (dp + y));
    CountSplits(|o|, |p|, co + x, dp + y);
    FeedsSplit(AllParts(o), AllParts(p), x, y);
    AllPartsAreInjective(o, p);
  }

  /** The stream can be read back: whatever follows two streams, if the bytes agree then the
      capsules are the same and so is what follows.  In particular no stream is a prefix of
      a different capsule's. */
  lemma StreamReadsBack(a: Capsule, b: Capsule, x: seq<Byte>, y: seq<Byte>)
    requires Stream(a) + x == Stream(b) + y
    ensures Same(a, b) && x == y
  {
    var la, lb := Lists(SortedCapabilities(a), SortedObjects(a)), Lists(SortedCapabilities(b), SortedObjects(b));
    Joins(Feeds(Header(a)), la, x);
    Joins(Feeds(Header(b)), lb, y);
    FeedsSplit(Header(a), Header(b), la + x, lb + y);
    SameHeader(a, b);
    ListsSplit(SortedCapabilities(a), SortedCapabilities(b), SortedObjects(a), SortedObjects(b), x, y);
    SameSorted(a, b);
  }

  /** Two manifests have one stream if and only if they are the same capsule. */
  lemma StreamsAgreeExactlyWhen(a: Capsule, b: Capsule)
    ensures Stream(a) == Stream(b) <==> Same(a, b)
  {
    if Stream(a) == Stream(b) {
      StreamReadsBack(a, b, [], []);
    }
    if Same(a, b) {
      SameSorted(a, b);
      assert |a.capabilities| == |multiset(a.capabilities)| && |b.capabilities| == |multiset(b.capabilities)|;
      assert |a.objects| == |multiset(a.objects)| && |b.objects| == |multiset(b.objects)|;
    }
  }

  // ---------------------------------------------------------------------------
  // A reader
  // ---------------------------------------------------------------------------

  /** The number little-endian bytes spell, and the signed one of a width. */
  function Number(bytes: seq<Byte>): nat {
    if bytes == [] then 0 else bytes[0] + 256 * Number(bytes[1..])
  }

  function Signed(n: nat, range: nat): int {
    if n < range / 2 then n else n - range
  }

  lemma {:induction false} LittleSpells(n: nat, width: nat)
    requires n < Range(width)
    ensures Number(Little(n, width)) == n
  {
    if width > 0 {
      var x := Little(n, width);
      assert x[0] == n % 256 && x[1..] == Little(n / 256, width - 1);
      LittleSpells(n / 256, width - 1);
    }
  }

  lemma SignedReads(kind: I32, seconds: I64, length: Length)
    ensures Signed(Number(Little(Bits32(kind), 4)), U32) == kind
    ensures Signed(Number(Little(Bits64(seconds), 8)), U64) == seconds
    ensures Number(Little(length, 8)) == length
  {
    Ranges();
    LittleSpells(Bits32(kind), 4);
    LittleSpells(Bits64(seconds), 8);
    LittleSpells(length, 8);
  }

  /** Take a length of eight bytes and as many bytes as it says; and so `n` times. */
  function ReadPart(s: seq<Byte>): Option<(seq<Byte>, seq<Byte>)> {
    if |s| < 8 || |s| < 8 + Number(s[..8]) then None
    else Some((s[8..8 + Number(s[..8])], s[8 + Number(s[..8])..]))
  }

  function ReadParts(s: seq<Byte>, n: nat): Option<(seq<seq<Byte>>, seq<Byte>)> {
    if n == 0 then Some(([], s))
    else
      var first := ReadPart(s);
      if first.None? then None
      else
        var more := ReadParts(first.value.1, n - 1);
        if more.None? then None else Some(([first.value.0] + more.value.0, more.value.1))
  }

  lemma ReadsFed(part: Text, x: seq<Byte>)
    ensures ReadPart(Fed(part) + x) == Some((part, x))
  {
    var s, n := Fed(part) + x, |part|;
    Joins(Little(n, 8), part, x);
    SignedReads(0, 0, n);
    assert s[..8] == Little(n, 8);
    assert s[8..8 + n] == part;
    assert s[8 + n..] == x;
  }

  lemma FeedsFirst(parts: seq<Text>)
    requires parts != []
    ensures Feeds(parts) == Fed(parts[0]) + Feeds(parts[1..])
  {
    FeedsJoin([parts[0]], parts[1..]);
    assert parts == [parts[0]] + parts[1..];
    assert [parts[0]][..0] == [] && [] + Fed(parts[0]) == Fed(parts[0]);
  }

  lemma {:induction false} ReadsFeeds(parts: seq<Text>, x: seq<Byte>)
    ensures ReadParts(Feeds(parts) + x, |parts|) == Some((parts, x))
  {
    if parts == [] {
      assert Feeds(parts) + x == x;
    } else {
      FeedsFirst(parts);
      Joins(Fed(parts[0]), Feeds(parts[1..]), x);
      ReadsFed(parts[0], Feeds(parts[1..]) + x);
      ReadsFeeds(parts[1..], x);
      assert parts == [parts[0]] + parts[1..];
    }
  }

  lemma ReadsCount(n: Length, x: seq<Byte>)
    ensures |Little(n, 8) + x| >= 8 && Number((Little(n, 8) + x)[..8]) == n && (Little(n, 8) + x)[8..] == x
  {
    SignedReads(0, 0, n);
    assert (Little(n, 8) + x)[..8] == Little(n, 8);
  }

  /** Bytewise order, said through the first difference. */
  ghost predicate FirstDifferenceLess(a: seq<Byte>, b: seq<Byte>) {
    exists i: nat :: DiffersAt(a, b, i)
  }

  ghost predicate DiffersAt(a: seq<Byte>, b: seq<Byte>, i: nat) {
    i <= |a| && i <= |b| && a[..i] == b[..i] && (i == |a| || (i < |b| && a[i] < b[i]))
  }

  lemma {:induction false} TextLeIsLexicographic(a: seq<Byte>, b: seq<Byte>)
    ensures TextLe(a, b) <==> FirstDifferenceLess(a, b)
  {
    if a == [] {
      assert DiffersAt(a, b, 0);
    } else if b != [] {
      if a[0] < b[0] {
        assert DiffersAt(a, b, 0);
      } else if a[0] == b[0] {
        TextLeIsLexicographic(a[1..], b[1..]);
        if FirstDifferenceLess(a[1..], b[1..]) {
          var i: nat :| DiffersAt(a[1..], b[1..], i);
          DiffersLater(a, b, i);
        }
        if FirstDifferenceLess(a, b) {
          var i: nat :| DiffersAt(a, b, i);
          DiffersEarlier(a, b, i);
        }
      }
    }
  }

  lemma DiffersLater(a: seq<Byte>, b: seq<Byte>, i: nat)
    requires a != [] && b != [] && a[0] == b[0] && DiffersAt(a[1..], b[1..], i)
    ensures DiffersAt(a, b, i + 1)
  {
    assert a[..i + 1] == [a[0]] + a[1..][..i] && b[..i + 1] == [b[0]] + b[1..][..i];
  }

  lemma DiffersEarlier(a: seq<Byte>, b: seq<Byte>, i: nat)
    requires a != [] && b != [] && a[0] == b[0] && DiffersAt(a, b, i)
    ensures FirstDifferenceLess(a[1..], b[1..])
  {
    assert i > 0;
    assert a[1..][..i - 1] == a[..i][1..] && b[1..][..i - 1] == b[..i][1..];
    assert DiffersAt(a[1..], b[1..], i - 1);
  }

  /** Objects go by digest, then type, then media type, then length. */
  lemma ObjectsGoBy(a: Object, b: Object)
    requires ObjectLe(a, b)
    ensures TextLe(a.digest, b.digest)
    ensures a.digest == b.digest ==> a.kind <= b.kind
    ensures a.digest == b.digest && a.kind == b.kind ==> TextLe(a.mediaType, b.mediaType)
    ensures a.digest == b.digest && a.kind == b.kind && a.mediaType == b.mediaType ==> a.length <= b.length
  {
    TextLeOrders(a.digest, a.digest);
    TextLeOrders(a.mediaType, a.mediaType);
  }

  /** The header, read in order, is these nine fields. */
  lemma HeaderReads(m: Capsule, x: seq<Byte>) returns (p: seq<seq<Byte>>)
    ensures ReadParts(Feeds(Header(m)) + x, 9) == Some((p, x)) && |p| == 9
    ensures p[0] == m.schemaVersion && p[1] == m.cpuClass && p[2] == m.templateHash && p[3] == m.runtimeBundleRef
    ensures |p[4]| == 4 && Signed(Number(p[4]), U32) == m.kind && p[5] == m.lineageId && p[6] == m.architecture
    ensures |p[7]| == 8 && Signed(Number(p[7]), U64) == (if m.createdAt.Some? then m.createdAt.value.seconds else 0)
    ensures |p[8]| == 4 && Signed(Number(p[8]), U32) == (if m.createdAt.Some? then m.createdAt.value.nanos else 0)
  {
    ReadsFeeds(Header(m), x);
    p := Header(m);
    SignedReads(m.kind, Created(m).seconds, 0);
    SignedReads(Created(m).nanos, 0, 0);
  }

  lemma {:induction false} PartsOfObject(objects: seq<Object>, k: nat)
    requires k < |objects|
    ensures AllParts(objects)[4 * k..4 * k + 4] == ObjectParts(objects[k])
  {
    var n := |objects| - 1;
    var init := AllParts(objects[..n]);
    if k < n {
      PartsOfObject(objects[..n], k);
      assert AllParts(objects)[4 * k..4 * k + 4] == init[4 * k..4 * k + 4];
    }
  }

  /** Four parts in a row are these fields of an object. */
  ghost predicate Spells(q: seq<seq<Byte>>, k: nat, o: Object) {
    && 4 * k + 4 <= |q| && q[4 * k] == o.digest && |q[4 * k + 1]| == 8 && Number(q[4 * k + 1]) == o.length
    && |q[4 * k + 2]| == 4 && Signed(Number(q[4 * k + 2]), U32) == o.kind && q[4 * k + 3] == o.mediaType
  }

  lemma FourAt(q: seq<seq<Byte>>, at: nat, four: seq<seq<Byte>>)
    requires at + 4 <= |q| && |four| == 4 && q[at..at + 4] == four
    ensures q[at] == four[0] && q[at + 1] == four[1] && q[at + 2] == four[2] && q[at + 3] == four[3]
  {
    assert q[at..at + 4][0] == q[at] && q[at..at + 4][1] == q[at + 1];
    assert q[at..at + 4][2] == q[at + 2] && q[at..at + 4][3] == q[at + 3];
  }

  lemma ObjectSpells(objects: seq<Object>, k: nat)
    requires k < |objects|
    ensures Spells(AllParts(objects), k, objects[k])
  {
    PartsOfObject(objects, k);
    FourAt(AllParts(objects), 4 * k, ObjectParts(objects[k]));
    SignedReads(objects[k].kind, 0, objects[k].length);
    OneObjectSpells(AllParts(objects), k, objects[k]);
  }

  lemma OneObjectSpells(q: seq<seq<Byte>>, k: nat, o: Object)
    requires 4 * k + 4 <= |q| && q[4 * k] == o.digest && q[4 * k + 1] == Little(o.length, 8)
    requires q[4 * k + 2] == Little(Bits32(o.kind), 4) && q[4 * k + 3] == o.mediaType
    requires Number(Little(o.length, 8)) == o.length && Signed(Number(Little(Bits32(o.kind), 4)), U32) == o.kind
    ensures Spells(q, k, o)
  {
  }

  /** The lists, read after it: the capabilities behind their count, in bytewise order, and then
      the objects behind theirs, four parts each. */
  lemma ListsRead(capabilities: Texts, objects: Objects, x: seq<Byte>)
    ensures var s := Lists(capabilities, objects) + x;
            && |s| >= 8 && Number(s[..8]) == |capabilities|
            && var rest := Feeds(capabilities) + (Little(|objects|, 8) + (Feeds(AllParts(objects)) + x));
               && s[8..] == rest
               && ReadParts(rest, |capabilities|) == Some((capabilities, Little(|objects|, 8) + (Feeds(AllParts(objects)) + x)))
    ensures var s := Little(|objects|, 8) + (Feeds(AllParts(objects)) + x);
            && |s| >= 8 && Number(s[..8]) == |objects|
            && ReadParts(s[8..], 4 * |objects|) == Some((AllParts(objects), x))
  {
    var tail := Feeds(AllParts(objects)) + x;
    Nests(Little(|capabilities|, 8), Feeds(capabilities), Little(|objects|, 8), Feeds(AllParts(objects)), x);
    ReadsCount(|capabilities|, Feeds(capabilities) + (Little(|objects|, 8) + tail));
    ReadsFeeds(capabilities, Little(|objects|, 8) + tail);
    ReadsCount(|objects|, tail);
    ReadsFeeds(AllParts(objects), x);
  }

  /** A reader that knows only the order of the fields finds in the stream of any capsule, whatever
      follows it: the nine fields, the capabilities as a sorted list, the objects as a sorted
      list, and then what follows. */
  lemma StreamReadsInOrder(m: Capsule, x: seq<Byte>)
    returns (p: seq<seq<Byte>>, lists: seq<Byte>, c: seq<Text>, rest: seq<Byte>, q: seq<seq<Byte>>, os: seq<Object>)
    ensures ReadParts(Stream(m) + x, 9) == Some((p, lists)) && |p| == 9
    ensures p[0] == m.schemaVersion && p[1] == m.cpuClass && p[2] == m.templateHash && p[3] == m.runtimeBundleRef
    ensures Signed(Number(p[4]), U32) == m.kind && p[5] == m.lineageId && p[6] == m.architecture
    ensures Signed(Number(p[7]), U64) == (if m.createdAt.Some? then m.createdAt.value.seconds else 0)
    ensures Signed(Number(p[8]), U32) == (if m.createdAt.Some? then m.createdAt.value.nanos else 0)
    ensures |lists| >= 8 && Number(lists[..8]) == |c| && ReadParts(lists[8..], |c|) == Some((c, rest))
    ensures multiset(c) == multiset(m.capabilities) && forall i, j :: 0 <= i < j < |c| ==> TextLe(c[i], c[j])
    ensures |rest| >= 8 && Number(rest[..8]) == |os| && ReadParts(rest[8..], 4 * |os|) == Some((q, x))
    ensures multiset(os) == multiset(m.objects) && forall i, j :: 0 <= i < j < |os| ==> ObjectLe(os[i], os[j])
    ensures forall k :: 0 <= k < |os| ==> Spells(q, k, os[k])
  {
    c, os := SortedCapabilities(m), SortedObjects(m);
    lists := Lists(c, os) + x;
    Joins(Feeds(Header(m)), Lists(c, os), x);
    p := HeaderReads(m, lists);
    ListsRead(c, os, x);
    rest := Little(|os|, 8) + (Feeds(AllParts(os)) + x);
    q := AllParts(os);
    forall k | 0 <= k < |os|
      ensures Spells(q, k, os[k])
    {
      ObjectSpells(os, k);
    }
    ListsAreSorted(m);
  }

  lemma ListsAreSorted(m: Capsule)
    ensures var c := SortedCapabilities(m);
            multiset(c) == multiset(m.capabilities) && forall i, j :: 0 <= i < j < |c| ==> TextLe(c[i], c[j])
    ensures var os := SortedObjects(m);
            multiset(os) == multiset(m.objects) && forall i, j :: 0 <= i < j < |os| ==> ObjectLe(os[i], os[j])
  {
    TextOrderIsTotal();
    ObjectOrderIsTotal();
    SortSorts(m.capabilities, (a: Text, b: Text) => TextLe(a, b));
    SortSorts(m.objects, ObjectLe);
  }
}
