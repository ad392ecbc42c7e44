/**
 The event bus and its subscribers (crates/barista-node-agent/src/events.rs `emit`,
 service.rs `watch_events`).

 Any number of emitters, a retention sweep and one subscriber, interleaved at every point
 where the source can be interrupted.
 */
module Watch {
  import opened Prelude
  import opened EventLog

  type Task = string

  /** Rows per replay query. */
  const EVENT_PAGE := 256

  // ---------------------------------------------------------------------------
  // Emitting
  // ---------------------------------------------------------------------------

  datatype Emitter = Outside | Inside | Wrote(row: Row)

  /** `all` is every event ever inserted and `live` every event broadcast since this process
      started, when `base` of them already existed. */
  datatype Bus = Bus(
    log: Log, all: seq<Row>, live: seq<Row>, base: nat, lock: Option<Task>, emitters: map<Task, Emitter>)
  {
    function Of(t: Task): Emitter {
      if t in emitters then emitters[t] else Outside
    }
  }

  datatype Emission =
    | Enter(task: Task)
    | Write(task: Task, instance: string, body: string, nowMs: int)
    | GiveUp(task: Task)
    | Send(task: Task)

  /** `locking` is whether emitters take the lock at all. */
  predicate CanEmit(bus: Bus, e: Emission, locking: bool) {
    match e
    case Enter(t) => bus.Of(t).Outside? && (locking ==> bus.lock.None?)
    case Write(t, _, _, _) => bus.Of(t).Inside?
    case GiveUp(t) => bus.Of(t).Inside?
    case Send(t) => bus.Of(t).Wrote?
  }

  function Emit(bus: Bus, e: Emission, locking: bool): Bus
    requires CanEmit(bus, e, locking)
  {
    match e
    case Enter(t) => bus.(lock := Some(t), emitters := bus.emitters[t := Inside])
    case Write(t, instance, body, nowMs) =>
      var row := Row(bus.log.sequence + 1, instance, body, nowMs);
      bus.(log := Insert(bus.log, instance, body, nowMs), all := bus.all + [row],
           emitters := bus.emitters[t := Wrote(row)])
    case GiveUp(t) => bus.(lock := None, emitters := bus.emitters[t := Outside])
    case Send(t) =>
      bus.(live := bus.live + [bus.Of(t).row], lock := None, emitters := bus.emitters[t := Outside])
  }

  /** The one emitter between its insert and its send, if there is one. */
  ghost predicate Sending(bus: Bus) {
    bus.lock.Some? && bus.Of(bus.lock.value).Wrote?
  }

  /** The broadcast is exactly the inserted events in cursor order, short of at most the one
      being sent. */
  ghost predicate Ordered(bus: Bus) {
    && (forall t :: !bus.Of(t).Outside? <==> bus.lock == Some(t))
    && bus.base <= |bus.all|
    && if Sending(bus)
       then |bus.all| > bus.base && bus.Of(bus.lock.value).row == bus.all[|bus.all| - 1] &&
            bus.live == bus.all[bus.base..|bus.all| - 1]
       else bus.live == bus.all[bus.base..]
  }

  ghost predicate BusInv(bus: Bus) {
    Ordered(bus) && Sound(bus.log, bus.all)
  }

  lemma WriteKeepsOrdered(bus: Bus, e: Emission)
    requires Ordered(bus) && e.Write? && CanEmit(bus, e, true)
    ensures Ordered(Emit(bus, e, true))
  {
    var after := Emit(bus, e, true);
    assert bus.lock == Some(e.task) && after.lock == Some(e.task);
    assert after.Of(e.task) == Wrote(after.all[|bus.all|]);
    assert after.all[bus.base..|after.all| - 1] == bus.all[bus.base..];
  }

  lemma WriteKeepsBusInv(bus: Bus, e: Emission)
    requires BusInv(bus) && e.Write? && CanEmit(bus, e, true)
    ensures BusInv(Emit(bus, e, true))
  {
    WriteKeepsOrdered(bus, e);
    InsertKeepsSound(bus.log, bus.all, Inserting(e.instance, e.body, e.nowMs));
  }

  lemma SendKeepsBusInv(bus: Bus, e: Emission)
    requires BusInv(bus) && e.Send? && CanEmit(bus, e, true)
    ensures BusInv(Emit(bus, e, true))
  {
    assert bus.lock == Some(e.task);
    assert bus.all[bus.base..] == bus.all[bus.base..|bus.all| - 1] + [bus.all[|bus.all| - 1]];
  }

  lemma EmitKeepsBusInv(bus: Bus, e: Emission)
    requires BusInv(bus) && CanEmit(bus, e, true)
    ensures BusInv(Emit(bus, e, true))
  {
    match e
    case Write(_, _, _, _) => WriteKeepsBusInv(bus, e);
    case Send(_) => SendKeepsBusInv(bus, e);
    case Enter(_) =>
    case GiveUp(_) =>
  }

  /** What a subscriber that drops cursors at or below its last one hears. */
  function Heard(live: seq<Row>, last: nat): seq<Row> {
    if live == [] then []
    else if live[0].cursor > last then [live[0]] + Heard(live[1..], live[0].cursor)
    else Heard(live[1..], last)
  }

  /** Of an ordered broadcast it hears everything. */
  lemma {:induction false} OrderedBroadcastIsHeardInFull(all: seq<Row>, from: nat, to: nat, last: nat)
    requires History(all) && last <= from <= to <= |all|
    ensures Heard(all[from..to], last) == all[from..to]
    decreases |all| - from
  {
    if from < to {
      assert all[from..to][1..] == all[from + 1..to];
      OrderedBroadcastIsHeardInFull(all, from + 1, to, from + 1);
    }
  }

  ghost predicate Emissions(b: seq<Bus>, emissions: seq<Emission>, locking: bool) {
    |b| == |emissions| + 1 && BusInv(b[0]) &&
    forall k :: 0 <= k < |emissions| ==>
      CanEmit(b[k], emissions[k], locking) && b[k + 1] == Emit(b[k], emissions[k], locking)
  }

  lemma {:induction false} EmittersAloneStayOrdered(b: seq<Bus>, emissions: seq<Emission>, i: nat)
    requires Emissions(b, emissions, true) && i < |b|
    ensures BusInv(b[i])
  {
    if i > 0 {
      EmittersAloneStayOrdered(b, emissions, i - 1);
      EmitKeepsBusInv(b[i - 1], emissions[i - 1]);
    }
  }

  /** Every interleaving of locked emitters: a subscriber that has everything up to the
      process's start hears every broadcast event, and with nobody mid-send that is every
      event inserted since. */
  lemma NothingIsLostUnderTheLock(b: seq<Bus>, emissions: seq<Emission>, i: nat)
    requires Emissions(b, emissions, true) && i < |b|
    ensures Heard(b[i].live, b[i].base) == b[i].live
    ensures !Sending(b[i]) ==> b[i].base <= |b[i].all| && b[i].live == b[i].all[b[i].base..]
  {
    EmittersAloneStayOrdered(b, emissions, i);
    var bus := b[i];
    var to := if Sending(bus) then |bus.all| - 1 else |bus.all|;
    assert bus.live == bus.all[bus.base..to];
    OrderedBroadcastIsHeardInFull(bus.all, bus.base, to, bus.base);
  }

  /** Without the lock two emitters can send in the opposite order to their cursors, and the
      first event is dropped by everyone. */
  lemma UnlockedEmittersLoseAnEvent() returns (b: seq<Bus>, emissions: seq<Emission>)
    ensures Emissions(b, emissions, false)
    ensures var last := b[|b| - 1];
            (forall t :: last.Of(t).Outside?) && last.base == 0 && |last.all| == 2 && Heard(last.live, 0) == [last.all[1]]
  {
    var one, two;
    b, emissions, one, two := BothWrote();
    b, emissions := SendUnlocked(b, emissions, "q", two);
    b, emissions := SendUnlocked(b, emissions, "p", one);
    assert b[|b| - 1].live == [two, one];
    HeardBackwards(one, two);
  }

  /** Two emitters have inserted, in this order, and neither has sent. */
  lemma BothWrote() returns (b: seq<Bus>, emissions: seq<Emission>, one: Row, two: Row)
    ensures Emissions(b, emissions, false) && 0 < one.cursor < two.cursor
    ensures var bus := b[|b| - 1];
            && bus.all == [one, two] && bus.live == [] && bus.base == 0
            && bus.emitters == map["p" := Wrote(one), "q" := Wrote(two)]
  {
    one, two := Row(1, "i", "x", 0), Row(2, "i", "y", 0);
    b, emissions := EnterUnlocked([Bus(Log([], 0, 0), [], [], 0, None, map[])], [], "p");
    b, emissions := EnterUnlocked(b, emissions, "q");
    b, emissions := WriteUnlocked(b, emissions, "p", one);
    b, emissions := WriteUnlocked(b, emissions, "q", two);
  }

  lemma ExtendUnlocked(b: seq<Bus>, emissions: seq<Emission>, e: Emission) returns (b': seq<Bus>, emissions': seq<Emission>)
    requires Emissions(b, emissions, false) && CanEmit(b[|b| - 1], e, false)
    ensures Emissions(b', emissions', false) && b'[|b'| - 1] == Emit(b[|b| - 1], e, false)
  {
    b', emissions' := b + [Emit(b[|b| - 1], e, false)], emissions + [e];
  }

  lemma EnterUnlocked(b: seq<Bus>, emissions: seq<Emission>, t: Task) returns (b': seq<Bus>, emissions': seq<Emission>)
    requires Emissions(b, emissions, false) && b[|b| - 1].Of(t).Outside?
    ensures Emissions(b', emissions', false)
    ensures var bus := b[|b| - 1]; b'[|b'| - 1] == bus.(lock := Some(t), emitters := bus.emitters[t := Inside])
  {
    b', emissions' := ExtendUnlocked(b, emissions, Enter(t));
  }

  lemma SendUnlocked(b: seq<Bus>, emissions: seq<Emission>, t: Task, row: Row)
    returns (b': seq<Bus>, emissions': seq<Emission>)
    requires Emissions(b, emissions, false) && b[|b| - 1].Of(t) == Wrote(row)
    ensures Emissions(b', emissions', false)
    ensures var bus := b[|b| - 1];
            b'[|b'| - 1] == bus.(live := bus.live + [row], lock := None, emitters := bus.emitters[t := Outside])
  {
    b', emissions' := ExtendUnlocked(b, emissions, Send(t));
  }

  lemma WriteUnlocked(b: seq<Bus>, emissions: seq<Emission>, t: Task, row: Row)
    returns (b': seq<Bus>, emissions': seq<Emission>)
    requires Emissions(b, emissions, false)
    requires b[|b| - 1].Of(t).Inside? && row.cursor == b[|b| - 1].log.sequence + 1
    ensures Emissions(b', emissions', false)
    ensures var bus := b[|b| - 1];
            b'[|b'| - 1] == bus.(log := Log(bus.log.rows + [row], bus.log.lastPruned, row.cursor), all := bus.all + [row],
                                 emitters := bus.emitters[t := Wrote(row)])
  {
    b', emissions' := ExtendUnlocked(b, emissions, Write(t, row.instance, row.body, row.atMs));
  }

  lemma HeardBackwards(one: Row, two: Row)
    requires 0 < one.cursor < two.cursor
    ensures Heard([two, one], 0) == [two]
  {
    assert [two, one][1..] == [one] && [one][1..] == [];
    assert Heard([one], two.cursor) == [];
  }

  // ---------------------------------------------------------------------------
  // Watching
  // ---------------------------------------------------------------------------

  datatype Phase = Off | Subscribed | Replaying | Live | Lagged | TooOld

  /** `pos` counts the broadcasts received or skipped; `last` is the cursor the source keeps.
      The stream promises every matching event after `anchor`.  `cut` records that a page of a
      replay passed over an event the journal no longer had and the queue does not hold. */
  datatype Watcher = Watcher(
    phase: Phase, from: nat, filter: string, pos: nat, anchor: nat, last: nat, delivered: seq<Row>, cut: bool)

  const Asleep := Watcher(Off, 0, "", 0, 0, 0, [], false)

  function Seen(w: Watcher): nat {
    if w.last < w.anchor then w.anchor else w.last
  }

  datatype System = System(bus: Bus, watch: Watcher)

  datatype Event =
    | Emitting(emission: Emission)
    | Sweeping(olderMs: int, chunk: nat)
    | Subscribe(from: nat, filter: string)
    | Anchor
    | Page
    | Receive
    | Lag(to: nat)
    | Repair

  predicate Enabled(s: System, e: Event) {
    match e
    case Emitting(emission) => CanEmit(s.bus, emission, true)
    case Sweeping(_, _) => true
    case Subscribe(_, _) => s.watch.phase.Off?
    case Anchor => s.watch.phase.Subscribed?
    case Page => s.watch.phase.Replaying?
    case Receive => s.watch.phase.Live? && s.watch.pos < |s.bus.live|
    case Lag(to) => s.watch.phase.Live? && s.watch.pos < to <= |s.bus.live|
    case Repair => s.watch.phase.Lagged?
  }

  /** Some matching event with an index in this range is gone from the journal. */
  predicate Missing(log: Log, all: seq<Row>, lo: nat, hi: nat, filter: string) {
    exists i :: lo <= i < hi && i < |all| && Matches(all[i], filter) && all[i] !in log.rows
  }

  /** How far a page speaks for: its last row, or, if it is short and the stream goes live,
      where the queue takes over. */
  function Reach(page: seq<Row>, seen: nat, queued: nat): nat {
    if |page| < EVENT_PAGE && Past(page, seen) < queued then queued else Past(page, seen)
  }

  /** The page passes over a matching event that is gone from the journal. */
  predicate PassesOver(bus: Bus, w: Watcher, page: seq<Row>) {
    Missing(bus.log, bus.all, Seen(w), Reach(page, Seen(w), bus.base + w.pos), w.filter)
  }

  function Next(s: System, e: Event): System
    requires Enabled(s, e)
  {
    var w := s.watch;
    match e
    case Emitting(emission) => s.(bus := Emit(s.bus, emission, true))
    case Sweeping(olderMs, chunk) => s.(bus := s.bus.(log := Prune(s.bus.log, olderMs, chunk)))
    case Subscribe(from, filter) =>
      s.(watch := w.(phase := Subscribed, from := from, filter := filter, pos := |s.bus.live|))
    case Anchor =>
      if w.from == 0 then
        var head, start := Head(s.bus.log), s.bus.base + w.pos;
        s.(watch := w.(phase := Live, last := head, anchor := if head < start then start else head))
      else if w.from < Floor(s.bus.log) then s.(watch := w.(phase := TooOld, anchor := w.from, last := w.from))
      else s.(watch := w.(phase := Replaying, anchor := w.from, last := w.from))
    case Page =>
      var page := EventsAfter(s.bus.log, w.last, w.filter, EVENT_PAGE);
      s.(watch := w.(delivered := w.delivered + page,
                     last := Past(page, w.last),
                     phase := if |page| < EVENT_PAGE then Live else Replaying,
                     cut := w.cut || PassesOver(s.bus, w, page)))
    case Receive =>
      var row := s.bus.live[w.pos];
      if row.cursor <= w.last || !Matches(row, w.filter) then s.(watch := w.(pos := w.pos + 1))
      else s.(watch := w.(pos := w.pos + 1, last := row.cursor, delivered := w.delivered + [row]))
    case Lag(to) => s.(watch := w.(pos := to, phase := Lagged))
    case Repair =>
      if w.last < Floor(s.bus.log) then s.(watch := w.(phase := TooOld))
      else s.(watch := w.(phase := Replaying))
  }

  /** A process that starts on what earlier ones left. */
  ghost predicate Starts(s: System, prior: seq<Action>) {
    var (log, all) := After(prior);
    s == System(Bus(log, all, [], |all|, None, map[]), Asleep)
  }

  ghost predicate Run(b: seq<System>, events: seq<Event>) {
    && |b| == |events| + 1 && (exists prior :: Starts(b[0], prior))
    && forall i :: 0 <= i < |events| ==> Enabled(b[i], events[i]) && b[i + 1] == Next(b[i], events[i])
  }

  /** The matching events whose cursors lie above `lo` and not above `hi`. */
  function Between(all: seq<Row>, lo: nat, hi: nat, filter: string): seq<Row> {
    if lo <= hi <= |all| then Select(all[lo..hi], filter) else []
  }

  /** No matching event has an index in this range. */
  ghost predicate Quiet(all: seq<Row>, lo: nat, hi: nat, filter: string) {
    forall i :: lo <= i < hi && i < |all| ==> !Matches(all[i], filter)
  }

  /** No row has a cursor above `lo` and not above `hi`. */
  ghost predicate Gap(rows: seq<Row>, lo: nat, hi: nat) {
    forall i :: 0 <= i < |rows| ==> rows[i].cursor <= lo || rows[i].cursor > hi
  }

  /** The stream is exact up to `seen`. */
  ghost predicate Exact(all: seq<Row>, anchor: nat, seen: nat, filter: string, delivered: seq<Row>) {
    anchor <= seen && (seen <= |all| || seen == anchor) && delivered == Between(all, anchor, seen, filter)
  }

  ghost predicate WatchInv(s: System) {
    var w, bus := s.watch, s.bus;
    && w.pos <= |bus.live|
    && (w.phase.Off? || w.phase.Subscribed? ==> w.delivered == [] && w.last == 0 && w.anchor == 0 && !w.cut)
    && (!w.phase.Off? && !w.phase.Subscribed? && !w.cut ==>
          && Exact(bus.all, w.anchor, Seen(w), w.filter, w.delivered)
          && (w.last < w.anchor ==> w.anchor <= bus.base + w.pos && Gap(bus.log.rows, w.last, w.anchor))
          && (w.phase.Live? ==> Quiet(bus.all, Seen(w), bus.base + w.pos, w.filter)))
  }

  /** A matching event that was not delivered and never will be: it is gone from the journal,
      and the stream is past it in the queue or by its cursor. */
  ghost predicate LostAt(s: System, i: nat) {
    var w, bus := s.watch, s.bus;
    && w.anchor <= i < |bus.all| && Matches(bus.all[i], w.filter)
    && bus.all[i] !in w.delivered && bus.all[i] !in bus.log.rows
    && (i < bus.base + w.pos || i < w.last)
  }

  ghost predicate Lost(s: System) {
    exists i: nat :: LostAt(s, i)
  }

  ghost predicate Inv(s: System) {
    BusInv(s.bus) && WatchInv(s)
  }

  // ---- what a page serves ----------------------------------------------------

  ghost predicate SameRows(a: seq<Row>, b: seq<Row>) {
    forall r :: r in a <==> r in b
  }

  /** An ascending table is determined by its rows. */
  lemma {:induction false} AscendingIsUnique(a: seq<Row>, b: seq<Row>)
    requires Ascending(a) && Ascending(b) && SameRows(a, b)
    ensures a == b
  {
    NonEmptyHasARow(a);
    NonEmptyHasARow(b);
    if a != [] {
      InitsAgree(a, b);
      AscendingIsUnique(a[..|a| - 1], b[..|b| - 1]);
      assert a == a[..|a| - 1] + [a[|a| - 1]];
      assert b == b[..|b| - 1] + [b[|b| - 1]];
    }
  }

  lemma InitsAgree(a: seq<Row>, b: seq<Row>)
    requires Ascending(a) && Ascending(b) && SameRows(a, b) && a != [] && b != []
    ensures a[|a| - 1] == b[|b| - 1]
    ensures Ascending(a[..|a| - 1]) && Ascending(b[..|b| - 1]) && SameRows(a[..|a| - 1], b[..|b| - 1])
  {
    SameLast(a, b);
    var x, y := a[..|a| - 1], b[..|b| - 1];
    forall r
      ensures r in x <==> r in y
    {
      InitMember(a, r);
      InitMember(b, r);
    }
  }

  lemma NonEmptyHasARow(a: seq<Row>)
    ensures a != [] ==> exists r :: r in a
  {
    if a != [] {
      assert a[0] in a;
    }
  }

  lemma NotLater(a: seq<Row>, i: nat, j: nat)
    requires Ascending(a) && i < |a| && j < |a| && a[i].cursor <= a[j].cursor
    ensures i <= j
  {
  }

  lemma InitMember(a: seq<Row>, r: Row)
    requires Ascending(a) && a != []
    ensures r in a[..|a| - 1] <==> r in a && r != a[|a| - 1]
  {
  }

  lemma SameLast(a: seq<Row>, b: seq<Row>)
    requires Ascending(a) && Ascending(b) && a != [] && b != [] && SameRows(a, b)
    ensures a[|a| - 1] == b[|b| - 1]
  {
    var x, y := a[|a| - 1], b[|b| - 1];
    assert x in a && y in b;
    var i :| 0 <= i < |b| && b[i] == x;
    var j :| 0 <= j < |a| && a[j] == y;
    assert x.cursor <= y.cursor && y.cursor <= x.cursor;
  }

  lemma LimitMembers(full: seq<Row>, seen: nat, r: Row)
    requires Ascending(full)
    ensures var page := Limit(full, EVENT_PAGE);
            r in page <==> r in full && (|page| < EVENT_PAGE || r.cursor <= Past(page, seen))
  {
    var page := Limit(full, EVENT_PAGE);
    if |full| > EVENT_PAGE {
      assert page == full[..EVENT_PAGE];
      if r in full && r.cursor <= Past(page, seen) {
        var i :| 0 <= i < |full| && full[i] == r;
        NotLater(full, i, EVENT_PAGE - 1);
        assert page[i] == r;
      }
      if r in page {
        var i :| 0 <= i < |page| && page[i] == r;
        assert full[i] == r;
      }
    } else if r in full {
      var i :| 0 <= i < |full| && full[i] == r;
      assert i < |full| - 1 ==> full[i].cursor < full[|full| - 1].cursor;
    }
  }

  lemma LimitAscends(full: seq<Row>)
    requires Ascending(full)
    ensures Ascending(Limit(full, EVENT_PAGE))
  {
  }

  /** A page's rows, and where it ends. */
  lemma PageMembers(log: Log, all: seq<Row>, seen: nat, filter: string, r: Row)
    requires Sound(log, all)
    ensures var page := EventsAfter(log, seen, filter, EVENT_PAGE);
            r in page <==> r in log.rows && seen < r.cursor && Matches(r, filter) &&
                           (|page| < EVENT_PAGE || r.cursor <= Past(page, seen))
  {
    ServedAscends(log, seen, filter);
    ServedMembers(log, seen, filter, r);
    LimitMembers(EventsAfter(log, seen, filter, 0), seen, r);
  }

  lemma PageAscends(log: Log, all: seq<Row>, seen: nat, filter: string)
    requires Sound(log, all)
    ensures Ascending(EventsAfter(log, seen, filter, EVENT_PAGE))
  {
    ServedAscends(log, seen, filter);
    LimitAscends(EventsAfter(log, seen, filter, 0));
  }

  lemma IsAt(log: Log, all: seq<Row>, r: Row)
    requires Sound(log, all) && r in log.rows
    ensures 0 < r.cursor <= |all| && all[r.cursor - 1] == r
  {
    var i :| 0 <= i < |all| && all[i] == r;
  }

  lemma PageEndsAt(log: Log, all: seq<Row>, seen: nat, filter: string)
    requires Sound(log, all)
    ensures var page := EventsAfter(log, seen, filter, EVENT_PAGE);
            && seen <= Past(page, seen) && (page == [] || Past(page, seen) <= |all|)
            && (forall r :: r in page ==> r.cursor <= Past(page, seen))
  {
    var page := EventsAfter(log, seen, filter, EVENT_PAGE);
    PageAscends(log, all, seen, filter);
    if page != [] {
      var r := page[|page| - 1];
      assert r in page;
      PageMembers(log, all, seen, filter, r);
      IsAt(log, all, r);
    }
    forall r | r in page
      ensures r.cursor <= Past(page, seen)
    {
      var i :| 0 <= i < |page| && page[i] == r;
      assert i < |page| - 1 ==> page[i].cursor < page[|page| - 1].cursor;
    }
  }

  lemma BetweenMembers(all: seq<Row>, lo: nat, hi: nat, filter: string, r: Row)
    requires History(all) && lo <= hi <= |all|
    ensures r in Between(all, lo, hi, filter) <==> lo < r.cursor <= hi && all[r.cursor - 1] == r && Matches(r, filter)
    ensures Ascending(Between(all, lo, hi, filter))
  {
    SelectMembers(all[lo..hi], filter, r);
    SelectAscends(all[lo..hi], filter);
    if lo < r.cursor <= hi && all[r.cursor - 1] == r {
      assert all[lo..hi][r.cursor - 1 - lo] == r;
    }
  }

  lemma {:induction false} QuietSelectsNothing(all: seq<Row>, lo: nat, hi: nat, filter: string)
    requires lo <= hi <= |all|
    ensures Quiet(all, lo, hi, filter) <==> Select(all[lo..hi], filter) == []
  {
    if lo < hi {
      QuietSelectsNothing(all, lo, hi - 1, filter);
      assert all[lo..hi][..hi - lo - 1] == all[lo..hi - 1];
    }
  }

  lemma BetweenSplits(all: seq<Row>, lo: nat, mid: nat, hi: nat, filter: string)
    requires lo <= mid <= hi <= |all|
    ensures Between(all, lo, hi, filter) == Between(all, lo, mid, filter) + Between(all, mid, hi, filter)
  {
    SelectSplits(all[lo..mid], all[mid..hi], filter);
    assert all[lo..mid] + all[mid..hi] == all[lo..hi];
  }

  /** With nothing missing, a page is exactly the matching events up to where it ends. */
  lemma PageIsBetween(log: Log, all: seq<Row>, seen: nat, filter: string)
    requires Sound(log, all) && seen <= |all|
    requires !Missing(log, all, seen, Past(EventsAfter(log, seen, filter, EVENT_PAGE), seen), filter)
    ensures var page := EventsAfter(log, seen, filter, EVENT_PAGE);
            page == Between(all, seen, Past(page, seen), filter)
  {
    var page := EventsAfter(log, seen, filter, EVENT_PAGE);
    var end := Past(page, seen);
    PageEndsAt(log, all, seen, filter);
    PageAscends(log, all, seen, filter);
    forall r
      ensures r in page <==> r in Between(all, seen, end, filter)
    {
      PageMembers(log, all, seen, filter, r);
      BetweenMembers(all, seen, end, filter, r);
      if r in page {
        IsAt(log, all, r);
      }
      if r in Between(all, seen, end, filter) {
        assert all[r.cursor - 1] in log.rows;
      }
    }
    BetweenMembers(all, seen, end, filter, Row(0, "", "", 0));
    AscendingIsUnique(page, Between(all, seen, end, filter));
  }

  lemma ShortPageLeavesQuiet(log: Log, all: seq<Row>, seen: nat, queued: nat, filter: string)
    requires Sound(log, all) && |EventsAfter(log, seen, filter, EVENT_PAGE)| < EVENT_PAGE
    requires !Missing(log, all, seen, queued, filter)
    ensures Quiet(all, Past(EventsAfter(log, seen, filter, EVENT_PAGE), seen), queued, filter)
  {
    var end := Past(EventsAfter(log, seen, filter, EVENT_PAGE), seen);
    PageEndsAt(log, all, seen, filter);
    forall i | end <= i < queued && i < |all|
      ensures !Matches(all[i], filter)
    {
      PageMembers(log, all, seen, filter, all[i]);
    }
  }

  /** The stream is exact, and if it is live the queue holds whatever else there is. */
  ghost predicate Whole(all: seq<Row>, anchor: nat, seen: nat, queued: nat, filter: string, delivered: seq<Row>, live: bool) {
    Exact(all, anchor, seen, filter, delivered) && (live ==> Quiet(all, seen, queued, filter))
  }

  ghost predicate WholeAfter(log: Log, all: seq<Row>, anchor: nat, seen: nat, queued: nat, filter: string, delivered: seq<Row>) {
    var page := EventsAfter(log, seen, filter, EVENT_PAGE);
    Whole(all, anchor, Past(page, seen), queued, filter, delivered + page, |page| < EVENT_PAGE)
  }

  lemma MissingNarrows(log: Log, all: seq<Row>, lo: nat, hi: nat, hi': nat, filter: string)
    requires hi' <= hi && !Missing(log, all, lo, hi, filter)
    ensures !Missing(log, all, lo, hi', filter)
  {
  }

  lemma PageIsExact(log: Log, all: seq<Row>, anchor: nat, seen: nat, queued: nat, filter: string, delivered: seq<Row>)
    requires Sound(log, all) && Exact(all, anchor, seen, filter, delivered)
    requires !Missing(log, all, seen, Reach(EventsAfter(log, seen, filter, EVENT_PAGE), seen, queued), filter)
    ensures WholeAfter(log, all, anchor, seen, queued, filter, delivered)
  {
    var page := EventsAfter(log, seen, filter, EVENT_PAGE);
    var reach := Reach(page, seen, queued);
    PageEndsAt(log, all, seen, filter);
    if |page| < EVENT_PAGE {
      MissingNarrows(log, all, seen, reach, queued, filter);
      ShortPageLeavesQuiet(log, all, seen, queued, filter);
    }
    if seen <= |all| {
      MissingNarrows(log, all, seen, reach, Past(page, seen), filter);
      PageIsBetween(log, all, seen, filter);
      BetweenSplits(all, anchor, seen, Past(page, seen), filter);
    }
  }

  /** What is gone was not sent before, and is not in the page. */
  lemma GoneIsNotSent(log: Log, all: seq<Row>, anchor: nat, seen: nat, filter: string, delivered: seq<Row>, i: nat)
    requires Sound(log, all) && Exact(all, anchor, seen, filter, delivered)
    requires seen <= i < |all| && all[i] !in log.rows
    ensures all[i] !in delivered && all[i] !in EventsAfter(log, seen, filter, EVENT_PAGE)
  {
    PageMembers(log, all, seen, filter, all[i]);
    BetweenMembers(all, anchor, seen, filter, all[i]);
  }

  lemma UnsentIsNotWhole(
    all: seq<Row>, anchor: nat, end: nat, queued: nat, filter: string, delivered: seq<Row>, live: bool, i: nat)
    requires History(all) && anchor <= i < |all| && (i < end || (live && i < queued))
    requires Matches(all[i], filter) && all[i] !in delivered && end <= |all|
    ensures !Whole(all, anchor, end, queued, filter, delivered, live)
  {
    if anchor <= end && i < end {
      BetweenMembers(all, anchor, end, filter, all[i]);
    }
  }

  lemma PageSkips(
    log: Log, all: seq<Row>, anchor: nat, seen: nat, queued: nat, filter: string, delivered: seq<Row>, i: nat)
    requires Sound(log, all) && Exact(all, anchor, seen, filter, delivered)
    requires seen <= i < Reach(EventsAfter(log, seen, filter, EVENT_PAGE), seen, queued) && i < |all|
    requires Matches(all[i], filter) && all[i] !in log.rows
    ensures !WholeAfter(log, all, anchor, seen, queued, filter, delivered)
    ensures all[i] !in delivered && all[i] !in EventsAfter(log, seen, filter, EVENT_PAGE)
  {
    var page := EventsAfter(log, seen, filter, EVENT_PAGE);
    PageEndsAt(log, all, seen, filter);
    GoneIsNotSent(log, all, anchor, seen, filter, delivered, i);
    UnsentIsNotWhole(all, anchor, Past(page, seen), queued, filter, delivered + page, |page| < EVENT_PAGE, i);
  }

  // ---- the steps -------------------------------------------------------------

  lemma QuietAddsNothing(all: seq<Row>, anchor: nat, seen: nat, at: nat, filter: string)
    requires anchor <= seen <= at <= |all| && Quiet(all, seen, at, filter)
    ensures Between(all, anchor, at, filter) == Between(all, anchor, seen, filter)
  {
    BetweenSplits(all, anchor, seen, at, filter);
    QuietSelectsNothing(all, seen, at, filter);
  }

  lemma OneMore(all: seq<Row>, anchor: nat, at: nat, filter: string)
    requires anchor <= at < |all| && Matches(all[at], filter)
    ensures Between(all, anchor, at + 1, filter) == Between(all, anchor, at, filter) + [all[at]]
  {
    assert all[anchor..at + 1][..at - anchor] == all[anchor..at];
    assert all[anchor..at + 1][at - anchor] == all[at];
  }

  /** The next broadcast keeps the stream exact, if nothing matching was passed over. */
  lemma BroadcastIsExact(all: seq<Row>, anchor: nat, seen: nat, filter: string, delivered: seq<Row>, at: nat)
    requires Exact(all, anchor, seen, filter, delivered) && seen <= at < |all|
    requires Quiet(all, seen, at, filter) && Matches(all[at], filter)
    ensures Exact(all, anchor, at + 1, filter, delivered + [all[at]])
  {
    QuietAddsNothing(all, anchor, seen, at, filter);
    OneMore(all, anchor, at, filter);
  }

  /** With no row in between, reading from either cursor is the same. */
  lemma SameAcrossGap(log: Log, last: nat, seen: nat)
    requires Ascending(log.rows) && last <= seen && Gap(log.rows, last, seen)
    ensures RowsAfter(log.rows, last) == RowsAfter(log.rows, seen)
  {
    var at := RowsAfterIsSuffix(log.rows, last);
    var at' := RowsAfterIsSuffix(log.rows, seen);
    assert at < |log.rows| ==> log.rows[at].cursor > seen;
    assert at' < |log.rows| ==> log.rows[at'].cursor > last;
  }

  /** Reading from the cursor is reading from where the stream stands. */
  lemma ReadsFromSeen(s: System)
    requires Inv(s) && Enabled(s, Page) && !s.watch.cut
    ensures EventsAfter(s.bus.log, s.watch.last, s.watch.filter, EVENT_PAGE) ==
            EventsAfter(s.bus.log, Seen(s.watch), s.watch.filter, EVENT_PAGE)
    ensures var page := EventsAfter(s.bus.log, s.watch.last, s.watch.filter, EVENT_PAGE);
            Seen(Next(s, Page).watch) == Past(page, Seen(s.watch))
  {
    var w, bus := s.watch, s.bus;
    if w.last < w.anchor {
      SameAcrossGap(bus.log, w.last, Seen(w));
    }
    PageEndsAt(bus.log, bus.all, Seen(w), w.filter);
    var page := EventsAfter(bus.log, Seen(w), w.filter, EVENT_PAGE);
    if page != [] {
      PageMembers(bus.log, bus.all, Seen(w), w.filter, page[|page| - 1]);
    }
  }

  lemma PageKeepsInv(s: System)
    requires Inv(s) && Enabled(s, Page) && !s.watch.cut
    ensures WatchInv(Next(s, Page))
  {
    var w, bus := s.watch, s.bus;
    var page := EventsAfter(bus.log, w.last, w.filter, EVENT_PAGE);
    ReadsFromSeen(s);
    if !PassesOver(bus, w, page) {
      PageIsExact(bus.log, bus.all, w.anchor, Seen(w), bus.base + w.pos, w.filter, w.delivered);
    }
  }

  lemma BroadcastAt(bus: Bus, pos: nat)
    requires Ordered(bus) && History(bus.all) && pos < |bus.live|
    ensures bus.base + pos < |bus.all| && bus.live[pos] == bus.all[bus.base + pos] && bus.live[pos].cursor == bus.base + pos + 1
  {
  }

  /** Passing over a broadcast that does not match, or that was already sent. */
  lemma SkipKeepsInv(s: System)
    requires Inv(s) && Enabled(s, Receive) && !s.watch.cut
    requires var row := s.bus.live[s.watch.pos]; row.cursor <= s.watch.last || !Matches(row, s.watch.filter)
    ensures WatchInv(Next(s, Receive))
  {
    var w, bus := s.watch, s.bus;
    BroadcastAt(bus, w.pos);
    assert Quiet(bus.all, Seen(w), bus.base + w.pos + 1, w.filter);
  }

  lemma DeliverKeepsInv(s: System)
    requires Inv(s) && Enabled(s, Receive) && !s.watch.cut
    requires var row := s.bus.live[s.watch.pos]; row.cursor > s.watch.last && Matches(row, s.watch.filter)
    ensures WatchInv(Next(s, Receive))
  {
    var w, bus, at := s.watch, s.bus, s.bus.base + s.watch.pos;
    BroadcastAt(bus, w.pos);
    assert Seen(w) <= at;
    BroadcastIsExact(bus.all, w.anchor, Seen(w), w.filter, w.delivered, at);
    assert Seen(Next(s, Receive).watch) == at + 1;
  }

  lemma ReceiveKeepsInv(s: System)
    requires Inv(s) && Enabled(s, Receive) && !s.watch.cut
    ensures WatchInv(Next(s, Receive))
  {
    var row := s.bus.live[s.watch.pos];
    if row.cursor > s.watch.last && Matches(row, s.watch.filter) {
      DeliverKeepsInv(s);
    } else {
      SkipKeepsInv(s);
    }
  }

  lemma SweepKeepsGap(log: Log, olderMs: int, chunk: nat, lo: nat, hi: nat)
    requires Gap(log.rows, lo, hi)
    ensures Gap(Prune(log, olderMs, chunk).rows, lo, hi)
  {
    if Highest(log.rows, olderMs, chunk).Some? {
      var after := Prune(log, olderMs, chunk).rows;
      SurvivorsMembers(log.rows, olderMs, Highest(log.rows, olderMs, chunk).value);
      forall i | 0 <= i < |after|
        ensures after[i].cursor <= lo || after[i].cursor > hi
      {
        assert after[i] in log.rows;
      }
    }
  }

  lemma SweepKeepsInv(s: System, olderMs: int, chunk: nat)
    requires Inv(s)
    ensures Inv(Next(s, Sweeping(olderMs, chunk)))
  {
    var w, bus := s.watch, s.bus;
    PruneKeepsSound(bus.log, bus.all, olderMs, chunk);
    if w.last < w.anchor && !w.cut {
      SweepKeepsGap(bus.log, olderMs, chunk, w.last, w.anchor);
    }
  }

  lemma TailKeepsInv(s: System)
    requires Inv(s) && Enabled(s, Anchor) && s.watch.from == 0
    ensures WatchInv(Next(s, Anchor))
  {
    var bus, w := s.bus, Next(s, Anchor).watch;
    var rows := bus.log.rows;
    assert forall i :: 0 <= i < |rows| ==> rows[i].cursor <= Head(bus.log);
    assert rows != [] ==> rows[|rows| - 1].cursor <= |bus.all|;
    assert bus.base + w.pos <= |bus.all|;
    assert Between(bus.all, w.anchor, w.anchor, w.filter) == [];
  }

  lemma ResumeKeepsInv(s: System)
    requires Inv(s) && Enabled(s, Anchor) && s.watch.from > 0
    ensures WatchInv(Next(s, Anchor))
  {
    assert Between(s.bus.all, s.watch.from, s.watch.from, s.watch.filter) == [];
  }

  lemma EmissionGrows(bus: Bus, e: Emission)
    requires BusInv(bus) && CanEmit(bus, e, true)
    ensures var after := Emit(bus, e, true);
            && |bus.all| <= |after.all| && after.all[..|bus.all|] == bus.all && |bus.live| <= |after.live| && after.base == bus.base
            && (forall r :: r in bus.log.rows ==> r in after.log.rows)
            && (forall i :: |bus.all| <= i < |after.all| ==> after.all[i] in after.log.rows && after.all[i].cursor == i + 1)
            && (forall r :: r in after.log.rows ==> r in bus.log.rows || r.cursor > |bus.all|)
  {
    if e.Write? {
      var after := Emit(bus, e, true);
      assert after.log.rows[|bus.log.rows|] == after.all[|bus.all|];
    }
  }

  lemma GrowthKeepsExact(all: seq<Row>, longer: seq<Row>, anchor: nat, seen: nat, filter: string, delivered: seq<Row>)
    requires |all| <= |longer| && longer[..|all|] == all && Exact(all, anchor, seen, filter, delivered)
    ensures Exact(longer, anchor, seen, filter, delivered)
  {
    assert forall i :: 0 <= i < |all| ==> longer[i] == longer[..|all|][i];
    assert anchor <= seen <= |all| ==> longer[anchor..seen] == all[anchor..seen];
    assert anchor == seen <= |longer| ==> longer[anchor..seen] == [];
  }

  lemma EmissionKeepsInv(s: System, e: Emission)
    requires Inv(s) && Enabled(s, Emitting(e))
    ensures WatchInv(Next(s, Emitting(e)))
  {
    var w, bus := s.watch, s.bus;
    var after := Emit(bus, e, true);
    EmissionGrows(bus, e);
    assert forall i :: 0 <= i < |bus.all| ==> after.all[i] == bus.all[i];
    assert bus.base + w.pos <= |bus.all|;
    if !w.phase.Off? && !w.phase.Subscribed? && !w.cut {
      GrowthKeepsExact(bus.all, after.all, w.anchor, Seen(w), w.filter, w.delivered);
      if w.last < w.anchor {
        GrowthKeepsGap(bus, after, w.last, w.anchor);
      }
    }
  }

  lemma GrowthKeepsGap(bus: Bus, after: Bus, lo: nat, hi: nat)
    requires Gap(bus.log.rows, lo, hi) && hi <= |bus.all|
    requires forall r :: r in after.log.rows ==> r in bus.log.rows || r.cursor > |bus.all|
    ensures Gap(after.log.rows, lo, hi)
  {
    forall i | 0 <= i < |after.log.rows|
      ensures after.log.rows[i].cursor <= lo || after.log.rows[i].cursor > hi
    {
      assert after.log.rows[i] in after.log.rows;
    }
  }

  lemma NextKeepsInv(s: System, e: Event)
    requires Inv(s) && Enabled(s, e)
    ensures Inv(Next(s, e))
  {
    match e
    case Emitting(emission) =>
      EmitKeepsBusInv(s.bus, emission);
      EmissionKeepsInv(s, emission);
    case Sweeping(olderMs, chunk) => SweepKeepsInv(s, olderMs, chunk);
    case Anchor => if s.watch.from == 0 { TailKeepsInv(s); } else { ResumeKeepsInv(s); }
    case Page => if !s.watch.cut { PageKeepsInv(s); }
    case Receive => if !s.watch.cut { ReceiveKeepsInv(s); }
    case _ => TurnKeepsInv(s, e);
  }

  /** The steps that deliver nothing. */
  lemma TurnKeepsInv(s: System, e: Event)
    requires Inv(s) && Enabled(s, e) && (e.Subscribe? || e.Lag? || e.Repair?)
    ensures Inv(Next(s, e))
  {
  }

  lemma StartIsInv(s: System, prior: seq<Action>)
    requires Starts(s, prior)
    ensures Inv(s)
  {
    EveryRunIsSound(prior);
    assert s.bus.all[|s.bus.all|..] == [];
  }

  lemma {:induction false} RunKeepsInv(b: seq<System>, events: seq<Event>, i: nat)
    requires Run(b, events) && i < |b|
    ensures Inv(b[i])
  {
    if i == 0 {
      var prior :| Starts(b[0], prior);
      StartIsInv(b[0], prior);
    } else {
      RunKeepsInv(b, events, i - 1);
      assert Enabled(b[i - 1], events[i - 1]);
      NextKeepsInv(b[i - 1], events[i - 1]);
    }
  }

  // ---- what is lost stays lost -----------------------------------------------

  lemma PageLoses(s: System)
    requires Inv(s) && Enabled(s, Page) && !s.watch.cut && Next(s, Page).watch.cut
    ensures Lost(Next(s, Page))
  {
    var w, bus, t := s.watch, s.bus, Next(s, Page);
    var page := EventsAfter(bus.log, w.last, w.filter, EVENT_PAGE);
    var queued := bus.base + w.pos;
    ReadsFromSeen(s);
    var i :| Seen(w) <= i < Reach(page, Seen(w), queued) && i < |bus.all| &&
             Matches(bus.all[i], w.filter) && bus.all[i] !in bus.log.rows;
    PageSkips(bus.log, bus.all, w.anchor, Seen(w), queued, w.filter, w.delivered, i);
    if i >= queued {
      assert page != [] && i < Past(page, Seen(w)) == t.watch.last;
    }
    assert LostAt(t, i);
  }

  lemma PageKeepsLost(s: System, i: nat)
    requires BusInv(s.bus) && Enabled(s, Page) && LostAt(s, i)
    ensures LostAt(Next(s, Page), i)
  {
    var w, bus := s.watch, s.bus;
    PageMembers(bus.log, bus.all, w.last, w.filter, bus.all[i]);
    PageEndsAt(bus.log, bus.all, w.last, w.filter);
  }

  lemma ReceiveKeepsLost(s: System, i: nat)
    requires BusInv(s.bus) && Enabled(s, Receive) && LostAt(s, i)
    ensures LostAt(Next(s, Receive), i)
  {
    BroadcastAt(s.bus, s.watch.pos);
    assert s.bus.all[i].cursor == i + 1;
  }

  lemma SweepKeepsLost(s: System, olderMs: int, chunk: nat, i: nat)
    requires LostAt(s, i)
    ensures LostAt(Next(s, Sweeping(olderMs, chunk)), i)
  {
    if Highest(s.bus.log.rows, olderMs, chunk).Some? {
      SurvivorsMembers(s.bus.log.rows, olderMs, Highest(s.bus.log.rows, olderMs, chunk).value);
    }
  }

  lemma EmissionKeepsLost(s: System, e: Emission, i: nat)
    requires BusInv(s.bus) && CanEmit(s.bus, e, true) && LostAt(s, i)
    ensures LostAt(Next(s, Emitting(e)), i)
  {
    EmissionGrows(s.bus, e);
    var all, all' := s.bus.all, Emit(s.bus, e, true).all;
    assert all'[i] == all'[..|all|][i] == all[i];
    assert all[i].cursor == i + 1;
  }

  ghost predicate Started(w: Watcher) {
    !w.phase.Off? && !w.phase.Subscribed?
  }

  lemma NextKeepsLost(s: System, e: Event)
    requires BusInv(s.bus) && Started(s.watch) && Lost(s) && Enabled(s, e)
    ensures Lost(Next(s, e)) && Started(Next(s, e).watch)
  {
    var i: nat :| LostAt(s, i);
    match e
    case Emitting(emission) => EmissionKeepsLost(s, emission, i);
    case Sweeping(olderMs, chunk) => SweepKeepsLost(s, olderMs, chunk, i);
    case Page => PageKeepsLost(s, i);
    case Receive => ReceiveKeepsLost(s, i);
    case Lag(_) => assert LostAt(Next(s, e), i);
    case Repair => assert LostAt(Next(s, e), i);
    case _ =>
  }

  lemma OnlyPagesCut(s: System, e: Event)
    requires Enabled(s, e) && !s.watch.cut && Next(s, e).watch.cut
    ensures e == Page
  {
  }

  lemma NextIsLost(s: System, e: Event)
    requires Inv(s) && Enabled(s, e) && Next(s, e).watch.cut
    requires s.watch.cut ==> Lost(s) && Started(s.watch)
    ensures Lost(Next(s, e)) && Started(Next(s, e).watch)
  {
    if s.watch.cut {
      NextKeepsLost(s, e);
    } else {
      OnlyPagesCut(s, e);
      PageLoses(s);
    }
  }

  lemma RunStartsAsleep(b: seq<System>, events: seq<Event>)
    requires Run(b, events)
    ensures b[0].watch == Asleep
  {
    var prior :| Starts(b[0], prior);
  }

  /** Once cut, a stream has lost an event for good. */
  lemma {:induction false} CutIsLost(b: seq<System>, events: seq<Event>, i: nat)
    requires Run(b, events) && i < |b|
    ensures b[i].watch.cut ==> Lost(b[i]) && Started(b[i].watch)
  {
    RunStartsAsleep(b, events);
    if i > 0 && b[i].watch.cut {
      CutIsLost(b, events, i - 1);
      RunKeepsInv(b, events, i - 1);
      assert Enabled(b[i - 1], events[i - 1]) && b[i] == Next(b[i - 1], events[i - 1]);
      NextIsLost(b[i - 1], events[i - 1]);
    }
  }

  // ---- the stream ------------------------------------------------------------

  ghost predicate WholeStream(s: System) {
    Whole(s.bus.all, s.watch.anchor, Seen(s.watch), s.bus.base + s.watch.pos, s.watch.filter, s.watch.delivered,
          s.watch.phase.Live?)
  }

  lemma PageWholeExactlyWhen(s: System)
    requires Inv(s) && Enabled(s, Page) && !s.watch.cut
    ensures var page := EventsAfter(s.bus.log, s.watch.last, s.watch.filter, EVENT_PAGE);
            WholeStream(Next(s, Page)) <==> !PassesOver(s.bus, s.watch, page)
  {
    var w, bus := s.watch, s.bus;
    ReadsFromSeen(s);
    var page, queued := EventsAfter(bus.log, w.last, w.filter, EVENT_PAGE), bus.base + w.pos;
    assert WholeStream(Next(s, Page)) <==> WholeAfter(bus.log, bus.all, w.anchor, Seen(w), queued, w.filter, w.delivered);
    if !PassesOver(bus, w, page) {
      PageIsExact(bus.log, bus.all, w.anchor, Seen(w), queued, w.filter, w.delivered);
    } else {
      var k :| Seen(w) <= k < Reach(page, Seen(w), queued) && k < |bus.all| && Matches(bus.all[k], w.filter) &&
               bus.all[k] !in bus.log.rows;
      PageSkips(bus.log, bus.all, w.anchor, Seen(w), queued, w.filter, w.delivered, k);
    }
  }

  /** The exact condition at every page of every run, under any clock: the stream is whole after
      it if and only if no matching event it speaks for is gone from the journal. */
  lemma PageIsExactExactlyWhen(b: seq<System>, events: seq<Event>, i: nat)
    requires Run(b, events) && i < |events| && events[i] == Page && !b[i].watch.cut
    ensures Enabled(b[i], Page)
    ensures var page := EventsAfter(b[i].bus.log, b[i].watch.last, b[i].watch.filter, EVENT_PAGE);
            WholeStream(b[i + 1]) <==> !PassesOver(b[i].bus, b[i].watch, page)
  {
    assert Enabled(b[i], events[i]) && b[i + 1] == Next(b[i], Page);
    RunKeepsInv(b, events, i);
    PageWholeExactlyWhen(b[i]);
  }

  /** Every interleaving of emitters, retention and lag, under any clock: unless it is cut, what
      a stream has delivered is exactly the matching events from its anchor up to where it
      stands, each once and in order.  Live, it is so, and nothing matching was passed over in
      the queue, if and only if the stream is not cut. */
  lemma StreamHasNoHoles(b: seq<System>, events: seq<Event>, i: nat)
    requires Run(b, events) && i < |b| && b[i].watch.phase in {Replaying, Live, Lagged, TooOld}
    ensures !b[i].watch.cut ==>
              b[i].watch.delivered == Between(b[i].bus.all, b[i].watch.anchor, Seen(b[i].watch), b[i].watch.filter)
    ensures b[i].watch.phase.Live? ==> (WholeStream(b[i]) <==> !b[i].watch.cut)
  {
    RunKeepsInv(b, events, i);
    if b[i].watch.cut {
      CutIsLost(b, events, i);
      var k: nat :| LostAt(b[i], k);
      if b[i].watch.phase.Live? {
        LostIsNotWhole(b[i], k);
      }
    }
  }

  lemma LostIsNotWhole(s: System, k: nat)
    requires BusInv(s.bus) && LostAt(s, k) && s.watch.phase.Live?
    ensures !WholeStream(s)
  {
    var w, bus := s.watch, s.bus;
    if Exact(bus.all, w.anchor, Seen(w), w.filter, w.delivered) && k < Seen(w) {
      assert bus.all[k].cursor == k + 1;
      if Seen(w) <= |bus.all| {
        BetweenMembers(bus.all, w.anchor, Seen(w), w.filter, bus.all[k]);
      }
    }
  }

  /** A live stream that has drained its queue, with nobody mid-send, has delivered every
      matching event there is after its anchor if and only if it is not cut. */
  lemma DrainedStreamIsCompleteExactlyWhen(b: seq<System>, events: seq<Event>, i: nat)
    requires Run(b, events) && i < |b| && b[i].watch.phase.Live?
    requires b[i].watch.pos == |b[i].bus.live| && !Sending(b[i].bus) && b[i].watch.anchor <= |b[i].bus.all|
    ensures b[i].watch.delivered == Select(b[i].bus.all[b[i].watch.anchor..], b[i].watch.filter) <==> !b[i].watch.cut
  {
    RunKeepsInv(b, events, i);
    var w, bus := b[i].watch, b[i].bus;
    assert bus.all[w.anchor..] == bus.all[w.anchor..|bus.all|];
    if w.cut {
      CutIsLost(b, events, i);
      var k: nat :| LostAt(b[i], k);
      assert bus.all[k].cursor == k + 1;
      BetweenMembers(bus.all, w.anchor, |bus.all|, w.filter, bus.all[k]);
    } else {
      QuietAddsNothing(bus.all, w.anchor, Seen(w), |bus.all|, w.filter);
    }
  }

  /** Said of single events: an uncut stream that has drained its queue has delivered an event
      if and only if it comes after the anchor and belongs to the instance asked for. */
  lemma DrainedStreamHas(b: seq<System>, events: seq<Event>, i: nat, r: Row)
    requires Run(b, events) && i < |b| && b[i].watch.phase.Live? && !b[i].watch.cut
    requires b[i].watch.pos == |b[i].bus.live| && !Sending(b[i].bus) && b[i].watch.anchor <= |b[i].bus.all|
    ensures r in b[i].watch.delivered <==>
              r in b[i].bus.all && r.cursor > b[i].watch.anchor && (b[i].watch.filter == "" || r.instance == b[i].watch.filter)
    ensures Ascending(b[i].watch.delivered)
  {
    RunKeepsInv(b, events, i);
    DrainedStreamIsCompleteExactlyWhen(b, events, i);
    SelectedAfter(b[i].bus.all, b[i].watch.anchor, b[i].watch.filter, r);
  }

  lemma SelectedAfter(all: seq<Row>, anchor: nat, filter: string, r: Row)
    requires History(all) && anchor <= |all|
    ensures r in Select(all[anchor..], filter) <==> r in all && r.cursor > anchor && (filter == "" || r.instance == filter)
    ensures Ascending(Select(all[anchor..], filter))
  {
    assert all[anchor..] == all[anchor..|all|];
    BetweenMembers(all, anchor, |all|, filter, r);
    if r in all {
      var k :| 0 <= k < |all| && all[k] == r;
    }
  }

  // ---- cut or not -------------------------------------------------------------

  /** Events delivered in cursor order, each once, each after the anchor and asked for. */
  ghost predicate Proper(all: seq<Row>, anchor: nat, filter: string, last: nat, delivered: seq<Row>) {
    && Ascending(delivered)
    && forall k :: 0 <= k < |delivered| ==>
         delivered[k] in all && anchor < delivered[k].cursor <= last && (filter == "" || delivered[k].instance == filter)
  }

  /** A tail whose cursor is behind its anchor has nothing in the journal in between. */
  ghost predicate Bridged(s: System) {
    Started(s.watch) && s.watch.last < s.watch.anchor ==>
      s.watch.anchor <= s.bus.base + s.watch.pos && Gap(s.bus.log.rows, s.watch.last, s.watch.anchor)
  }

  ghost predicate ProperStream(s: System) {
    Bridged(s) && Proper(s.bus.all, s.watch.anchor, s.watch.filter, s.watch.last, s.watch.delivered)
  }

  lemma MoreIsProper(all: seq<Row>, anchor: nat, filter: string, last: nat, delivered: seq<Row>, more: seq<Row>, last': nat)
    requires Proper(all, anchor, filter, last, delivered) && last <= last' && Ascending(more)
    requires forall r :: r in more ==>
               r in all && last < r.cursor <= last' && anchor < r.cursor && (filter == "" || r.instance == filter)
    ensures Proper(all, anchor, filter, last', delivered + more)
  {
    var both := delivered + more;
    forall k | 0 <= k < |both|
      ensures both[k] in all && anchor < both[k].cursor <= last' && (filter == "" || both[k].instance == filter)
      ensures k < |delivered| <==> both[k].cursor <= last
    {
      assert k >= |delivered| ==> both[k] == more[k - |delivered|] && both[k] in more;
    }
    forall i, j | 0 <= i < j < |both|
      ensures both[i].cursor < both[j].cursor
    {
      assert i >= |delivered| ==> both[i] == more[i - |delivered|] && both[j] == more[j - |delivered|];
    }
  }

  lemma PageIsProper(s: System)
    requires BusInv(s.bus) && ProperStream(s) && Enabled(s, Page)
    ensures ProperStream(Next(s, Page))
  {
    var w, bus := s.watch, s.bus;
    var page := EventsAfter(bus.log, w.last, w.filter, EVENT_PAGE);
    PageAscends(bus.log, bus.all, w.last, w.filter);
    PageEndsAt(bus.log, bus.all, w.last, w.filter);
    forall r | r in page
      ensures r in bus.all && w.last < r.cursor && w.anchor < r.cursor && (w.filter == "" || r.instance == w.filter)
    {
      PageMembers(bus.log, bus.all, w.last, w.filter, r);
      IsAt(bus.log, bus.all, r);
    }
    MoreIsProper(bus.all, w.anchor, w.filter, w.last, w.delivered, page, Past(page, w.last));
    assert page != [] ==> page[|page| - 1] in page;
  }

  lemma ReceiveIsProper(s: System)
    requires BusInv(s.bus) && ProperStream(s) && Enabled(s, Receive)
    ensures ProperStream(Next(s, Receive))
  {
    var w, bus := s.watch, s.bus;
    var row := bus.live[w.pos];
    BroadcastAt(bus, w.pos);
    if row.cursor > w.last && Matches(row, w.filter) {
      MoreIsProper(bus.all, w.anchor, w.filter, w.last, w.delivered, [row], row.cursor);
    }
  }

  lemma EmissionIsProper(s: System, e: Emission)
    requires Inv(s) && ProperStream(s) && Enabled(s, Emitting(e))
    ensures ProperStream(Next(s, Emitting(e)))
  {
    var w, bus, after := s.watch, s.bus, Emit(s.bus, e, true);
    EmissionGrows(bus, e);
    assert forall i :: 0 <= i < |bus.all| ==> after.all[..|bus.all|][i] == after.all[i];
    assert bus.base + w.pos <= |bus.all|;
    if Started(w) && w.last < w.anchor {
      GrowthKeepsGap(bus, after, w.last, w.anchor);
    }
  }

  lemma AnchorIsProper(s: System)
    requires Inv(s) && Enabled(s, Anchor)
    ensures ProperStream(Next(s, Anchor))
  {
    var rows := s.bus.log.rows;
    assert forall i :: 0 <= i < |rows| ==> rows[i].cursor <= Head(s.bus.log);
  }

  lemma NextIsProper(s: System, e: Event)
    requires Inv(s) && ProperStream(s) && Enabled(s, e)
    ensures ProperStream(Next(s, e))
  {
    match e
    case Emitting(emission) => EmissionIsProper(s, emission);
    case Sweeping(olderMs, chunk) =>
      if Started(s.watch) && s.watch.last < s.watch.anchor {
        SweepKeepsGap(s.bus.log, olderMs, chunk, s.watch.last, s.watch.anchor);
      }
    case Anchor => AnchorIsProper(s);
    case Page => PageIsProper(s);
    case Receive => ReceiveIsProper(s);
    case _ =>
  }

  /** In every run, cut or not and under any clock, what a stream has delivered comes in cursor
      order, each event once, and was inserted, lies after the anchor and was asked for. */
  lemma {:induction false} OnlyWhatWasAskedFor(b: seq<System>, events: seq<Event>, i: nat)
    requires Run(b, events) && i < |b|
    ensures ProperStream(b[i])
  {
    if i == 0 {
      RunStartsAsleep(b, events);
    } else {
      OnlyWhatWasAskedFor(b, events, i - 1);
      StepIsProper(b, events, i - 1);
    }
  }

  lemma StepIsProper(b: seq<System>, events: seq<Event>, i: nat)
    requires Run(b, events) && i < |events| && ProperStream(b[i])
    ensures ProperStream(b[i + 1])
  {
    RunKeepsInv(b, events, i);
    NextIsProper(b[i], events[i]);
  }

  /** The stream was asked for new events only, when `n` had been broadcast. */
  ghost predicate TailSince(s: System, n: nat) {
    && (Started(s.watch) ==> s.watch.anchor >= s.bus.base + n)
    && (s.watch.phase.Subscribed? ==> s.watch.from == 0 && s.watch.pos >= n)
    && !s.watch.phase.Off?
  }

  lemma {:induction false} TailStays(b: seq<System>, events: seq<Event>, i: nat, j: nat, filter: string)
    requires Run(b, events) && i < j < |b| && events[i] == Subscribe(0, filter)
    ensures TailSince(b[j], |b[i].bus.live|) && b[j].watch.filter == filter && b[j].bus.base == b[i].bus.base
    decreases j
  {
    if i < j - 1 {
      TailStays(b, events, i, j - 1, filter);
      StepStaysTail(b, events, j - 1, |b[i].bus.live|);
    } else {
      SubscribingIsTail(b[i], filter);
    }
  }

  lemma StepStaysTail(b: seq<System>, events: seq<Event>, i: nat, n: nat)
    requires Run(b, events) && i < |events| && TailSince(b[i], n)
    ensures TailSince(b[i + 1], n) && b[i + 1].watch.filter == b[i].watch.filter && b[i + 1].bus.base == b[i].bus.base
  {
    NextStaysTail(b[i], events[i], n);
  }

  lemma SubscribingIsTail(s: System, filter: string)
    requires Enabled(s, Subscribe(0, filter))
    ensures var t := Next(s, Subscribe(0, filter));
            TailSince(t, |s.bus.live|) && t.watch.filter == filter && t.bus.base == s.bus.base
  {
  }

  lemma NextStaysTail(s: System, e: Event, n: nat)
    requires TailSince(s, n) && Enabled(s, e)
    ensures TailSince(Next(s, e), n) && Next(s, e).watch.filter == s.watch.filter && Next(s, e).bus.base == s.bus.base
  {
  }

  /** A stream asked for new events only gets nothing that had been broadcast when it asked. */
  lemma TailGetsOnlyNewEvents(b: seq<System>, events: seq<Event>, i: nat, j: nat, filter: string, r: Row)
    requires Run(b, events) && i < j < |b| && events[i] == Subscribe(0, filter)
    requires r in b[j].watch.delivered
    ensures r !in b[i].bus.live && r.cursor > b[i].bus.base + |b[i].bus.live|
    ensures filter == "" || r.instance == filter
  {
    TailStays(b, events, i, j, filter);
    OnlyWhatWasAskedFor(b, events, j);
    RunKeepsInv(b, events, j);
    assert Started(b[j].watch);
    RunKeepsInv(b, events, i);
    BroadcastsAreBelow(b[i].bus, r);
  }

  lemma BroadcastsAreBelow(bus: Bus, r: Row)
    requires BusInv(bus)
    ensures r in bus.live ==> r.cursor <= bus.base + |bus.live|
  {
    if r in bus.live {
      var k :| 0 <= k < |bus.live| && bus.live[k] == r;
      BroadcastAt(bus, k);
    }
  }

  /** The journal is its history without a prefix. */
  ghost predicate Suffix(bus: Bus) {
    Holds(bus.log, bus.all, bus.log.lastPruned)
  }

  lemma StartIsSuffix(s: System, prior: seq<Action>)
    requires Starts(s, prior) && ClockSteady(s.bus.all)
    ensures Suffix(s.bus)
  {
    var k := EveryRunHolds(prior);
  }

  /** With a steady clock it is so all through a run. */
  lemma {:induction false} RunHolds(b: seq<System>, events: seq<Event>, i: nat)
    requires Run(b, events) && i < |b| && ClockSteady(b[i].bus.all)
    ensures Suffix(b[i].bus)
  {
    if i == 0 {
      var prior :| Starts(b[0], prior);
      StartIsSuffix(b[0], prior);
    } else {
      assert Enabled(b[i - 1], events[i - 1]) && b[i] == Next(b[i - 1], events[i - 1]);
      StepKeepsSteady(b[i - 1], events[i - 1]);
      RunHolds(b, events, i - 1);
      StepHolds(b[i - 1], events[i - 1]);
    }
  }

  lemma StepKeepsSteady(s: System, e: Event)
    requires Enabled(s, e) && ClockSteady(Next(s, e).bus.all)
    ensures ClockSteady(s.bus.all)
  {
    assert forall i :: 0 <= i < |s.bus.all| ==> Next(s, e).bus.all[i] == s.bus.all[i];
  }

  lemma StepHolds(s: System, e: Event)
    requires Enabled(s, e) && Suffix(s.bus) && ClockSteady(s.bus.all)
    ensures Suffix(Next(s, e).bus)
  {
    var bus, k := s.bus, s.bus.log.lastPruned;
    match e
    case Emitting(emission) =>
      if emission.Write? {
        var all := Next(s, e).bus.all;
        assert all[k..] == bus.all[k..] + [all[|bus.all|]];
      }
    case Sweeping(olderMs, chunk) => var k' := PruneTakesAPrefix(bus.log, bus.all, k, olderMs, chunk);
    case _ =>
  }

  lemma NothingAboveTheFloorIsMissing(bus: Bus, seen: nat, hi: nat, filter: string)
    requires Suffix(bus)
    ensures seen >= bus.log.lastPruned ==> !Missing(bus.log, bus.all, seen, hi, filter)
  {
    forall i | bus.log.lastPruned <= i < |bus.all|
      ensures bus.all[i] in bus.log.rows
    {
      assert bus.log.rows[i - bus.log.lastPruned] == bus.all[i];
    }
  }

  /** A prune moves the floor across where a replay stands. */
  ghost predicate Crosses(s: System, e: Event, t: System) {
    && e.Sweeping? && s.watch.phase.Replaying?
    && s.bus.log.lastPruned <= Seen(s.watch) < t.bus.log.lastPruned
  }

  lemma EntryChecksTheFloor(s: System, e: Event)
    requires Inv(s) && Suffix(s.bus) && Enabled(s, e)
    ensures !s.watch.phase.Replaying? && Next(s, e).watch.phase.Replaying? ==>
              Next(s, e).bus.log.lastPruned <= Seen(Next(s, e).watch)
  {
    HoldsFloor(s.bus.log, s.bus.all, s.bus.log.lastPruned);
  }

  lemma OnlySweepsCross(s: System, e: Event)
    requires Inv(s) && Enabled(s, e) && s.watch.phase.Replaying?
    requires s.bus.log.lastPruned <= Seen(s.watch) && Seen(Next(s, e).watch) < Next(s, e).bus.log.lastPruned
    ensures Crosses(s, e, Next(s, e))
  {
    PageEndsAt(s.bus.log, s.bus.all, s.watch.last, s.watch.filter);
  }

  /** A replay that stands below the floor. */
  ghost predicate Below(s: System) {
    s.watch.phase.Replaying? && Seen(s.watch) < s.bus.log.lastPruned
  }

  lemma CrossedOrBelow(s: System, e: Event)
    requires Inv(s) && Suffix(s.bus) && Enabled(s, e) && Below(Next(s, e))
    ensures s.watch.phase.Replaying? && (Below(s) || Crosses(s, e, Next(s, e)))
  {
    EntryChecksTheFloor(s, e);
    if s.bus.log.lastPruned <= Seen(s.watch) {
      OnlySweepsCross(s, e);
    }
  }

  lemma CrossedOrBelowInRun(b: seq<System>, events: seq<Event>, i: nat)
    requires Run(b, events) && i < |events| && ClockSteady(b[i + 1].bus.all) && Below(b[i + 1])
    ensures ClockSteady(b[i].bus.all) && b[i].watch.phase.Replaying?
    ensures Below(b[i]) || Crosses(b[i], events[i], b[i + 1])
  {
    assert Enabled(b[i], events[i]) && b[i + 1] == Next(b[i], events[i]);
    StepKeepsSteady(b[i], events[i]);
    RunKeepsInv(b, events, i);
    RunHolds(b, events, i);
    CrossedOrBelow(b[i], events[i]);
  }

  ghost predicate ReplayingThroughout(b: seq<System>, j: nat, i: nat)
    requires i < |b|
  {
    forall k :: j <= k <= i ==> b[k].watch.phase.Replaying?
  }

  lemma OneLonger(b: seq<System>, j: nat, i: nat)
    requires 0 < i < |b| && ReplayingThroughout(b, j, i - 1) && b[i].watch.phase.Replaying?
    ensures ReplayingThroughout(b, j, i)
  {
  }

  /** It was crossed by a prune since it began. */
  lemma {:induction false} CrossedSinceItBegan(b: seq<System>, events: seq<Event>, i: nat) returns (j: nat)
    requires Run(b, events) && i < |b| && ClockSteady(b[i].bus.all) && Below(b[i])
    ensures j < i && Crosses(b[j], events[j], b[j + 1]) && ReplayingThroughout(b, j, i)
  {
    RunStartsAsleep(b, events);
    assert i > 0;
    CrossedOrBelowInRun(b, events, i - 1);
    if Below(b[i - 1]) {
      j := CrossedSinceItBegan(b, events, i - 1);
    } else {
      j := i - 1;
    }
    OneLonger(b, j, i);
  }

  /** With a steady clock a stream is cut in one way only: at a page of a replay that a prune
      has crossed since its floor check. */
  lemma OnlyAPruneCuts(b: seq<System>, events: seq<Event>, i: nat) returns (j: nat)
    requires Run(b, events) && i < |events| && ClockSteady(b[i].bus.all)
    requires !b[i].watch.cut && b[i + 1].watch.cut
    ensures events[i] == Page && j < i && Crosses(b[j], events[j], b[j + 1])
    ensures ReplayingThroughout(b, j, i)
  {
    var w, bus := b[i].watch, b[i].bus;
    RunHolds(b, events, i);
    var page := EventsAfter(bus.log, w.last, w.filter, EVENT_PAGE);
    NothingAboveTheFloorIsMissing(bus, Seen(w), Reach(page, Seen(w), bus.base + w.pos), w.filter);
    assert Enabled(b[i], events[i]) && b[i + 1] == Next(b[i], events[i]);
    OnlyPagesCut(b[i], events[i]);
    j := CrossedSinceItBegan(b, events, i);
  }

  // ---- refusing --------------------------------------------------------------

  /** A lagging stream misses an event that neither the journal nor the queue can give it. */
  ghost predicate Short(s: System) {
    Missing(s.bus.log, s.bus.all, Seen(s.watch), s.bus.base + s.watch.pos, s.watch.filter)
  }

  /** Something after this cursor is gone from the journal, whether it matches or not. */
  ghost predicate Overtaken(bus: Bus, cursor: nat) {
    exists i :: cursor <= i < |bus.all| && bus.all[i] !in bus.log.rows
  }

  lemma OvertakenExactlyBelowTheFloor(bus: Bus, cursor: nat)
    requires Suffix(bus)
    ensures Overtaken(bus, cursor) <==> cursor < Floor(bus.log)
  {
    var k := bus.log.lastPruned;
    HoldsFloor(bus.log, bus.all, k);
    forall i | 0 <= i < |bus.all|
      ensures bus.all[i] in bus.log.rows <==> i >= k
    {
      if i >= k {
        assert bus.log.rows[i - k] == bus.all[i];
      } else {
        GoneBelow(bus.all, k, i);
      }
    }
    if cursor < k {
      assert bus.all[cursor] !in bus.log.rows;
    }
  }

  /** With a steady clock a stream is refused, on connecting or on repair, if and only if some
      event after its cursor is gone from the journal. */
  lemma RefusedExactlyWhenOvertaken(b: seq<System>, events: seq<Event>, i: nat)
    requires Run(b, events) && i < |events| && ClockSteady(b[i].bus.all)
    requires events[i] == Repair || (events[i] == Anchor && b[i].watch.from > 0)
    ensures b[i + 1].watch.phase.TooOld? <==>
              Overtaken(b[i].bus, if events[i] == Repair then b[i].watch.last else b[i].watch.from)
    ensures !b[i + 1].watch.phase.TooOld? ==> b[i + 1].watch.phase.Replaying?
  {
    assert Enabled(b[i], events[i]) && b[i + 1] == Next(b[i], events[i]);
    RunHolds(b, events, i);
    OvertakenExactlyBelowTheFloor(b[i].bus, if events[i] == Repair then b[i].watch.last else b[i].watch.from);
  }

  /** With a steady clock a lagging stream that is short is refused; it is short if and only if
      a matching event lies between where it stands and the lower of the floor and the queue. */
  lemma RefusalIsWarrantedExactlyWhen(b: seq<System>, events: seq<Event>, i: nat)
    requires Run(b, events) && i < |events| && events[i] == Repair && !b[i].watch.cut && ClockSteady(b[i].bus.all)
    ensures var s := b[i];
            var low := if Floor(s.bus.log) < s.bus.base + s.watch.pos then Floor(s.bus.log) else s.bus.base + s.watch.pos;
            && (Short(s) ==> b[i + 1].watch.phase.TooOld?)
            && (Short(s) <==> !Quiet(s.bus.all, Seen(s.watch), low, s.watch.filter))
  {
    var s := b[i];
    assert Enabled(s, events[i]) && b[i + 1] == Next(s, Repair);
    RunKeepsInv(b, events, i);
    RunHolds(b, events, i);
    HoldsFloor(s.bus.log, s.bus.all, s.bus.log.lastPruned);
    ShortExactlyBelowTheFloor(s.bus, Seen(s.watch), s.bus.base + s.watch.pos, s.watch.filter);
  }

  lemma ShortExactlyBelowTheFloor(bus: Bus, seen: nat, queued: nat, filter: string)
    requires Suffix(bus) && Floor(bus.log) == bus.log.lastPruned
    ensures var low := if Floor(bus.log) < queued then Floor(bus.log) else queued;
            Missing(bus.log, bus.all, seen, queued, filter) <==> !Quiet(bus.all, seen, low, filter)
  {
    var k := bus.log.lastPruned;
    forall i | 0 <= i < |bus.all|
      ensures bus.all[i] in bus.log.rows <==> i >= k
    {
      if i >= k {
        assert bus.log.rows[i - k] == bus.all[i];
      } else {
        GoneBelow(bus.all, k, i);
      }
    }
  }

  lemma GoneBelow(all: seq<Row>, k: nat, i: nat)
    requires History(all) && i < k <= |all|
    ensures all[i] !in all[k..]
  {
  }

  /** A run that is refused without being short: a tail stream that began on an emptied journal
      falls behind by one event, which the journal holds. */
  lemma AWholeStreamIsRefused() returns (b: seq<System>, events: seq<Event>, n: nat)
    ensures Run(b, events) && n == |events| - 1 && events[n] == Repair && ClockSteady(b[n].bus.all)
    ensures !b[n].watch.cut && !Short(b[n]) && b[n + 1].watch.phase.TooOld?
    ensures !Missing(b[n].bus.log, b[n].bus.all, b[n].watch.anchor, |b[n].bus.all|, b[n].watch.filter)
  {
    var one, two;
    b, events, one, two := TailBehindByOne();
    n := |events|;
    NothingMissing(b[n], one, two);
    b, events := Extend(b, events, Repair);
  }

  lemma NothingMissing(s: System, one: Row, two: Row)
    requires s.bus.all == [one, two] && s.bus.log.rows == [two]
    ensures !Missing(s.bus.log, s.bus.all, 1, 2, "")
  {
    assert s.bus.all[1] == s.bus.log.rows[0];
  }

  lemma TailBehindByOne() returns (b: seq<System>, events: seq<Event>, one: Row, two: Row)
    ensures Run(b, events) && two.cursor == 2 && one.atMs == two.atMs
    ensures b[|b| - 1] == System(Bus(Log([two], 1, 2), [one, two], [two], 1, None, map["t" := Outside]),
                                 Watcher(Lagged, 0, "", 1, 1, 0, [], false))
  {
    b, events, one, two := TailMidSend();
    b, events := Extend(b, events, Emitting(Send("t")));
    b, events := Extend(b, events, Lag(1));
  }

  lemma TailMidSend() returns (b: seq<System>, events: seq<Event>, one: Row, two: Row)
    ensures Run(b, events) && two.cursor == 2 && one.atMs == two.atMs
    ensures b[|b| - 1] == System(Bus(Log([two], 1, 2), [one, two], [], 1, Some("t"), map["t" := Wrote(two)]),
                                 Watcher(Live, 0, "", 0, 1, 0, [], false))
  {
    b, events, one := TailOnEmptied();
    two := Row(2, "i", "b", 0);
    b, events := Extend(b, events, Emitting(Enter("t")));
    Inserts(b[|b| - 1], "t", two);
    assert [] + [two] == [two] && [one] + [two] == [one, two];
    b, events := Extend(b, events, Emitting(Write("t", "i", "b", 0)));
  }

  lemma Inserts(s: System, t: Task, row: Row)
    requires s.bus.Of(t).Inside? && row.cursor == s.bus.log.sequence + 1
    ensures Next(s, Emitting(Write(t, row.instance, row.body, row.atMs))) ==
            s.(bus := s.bus.(log := Log(s.bus.log.rows + [row], s.bus.log.lastPruned, row.cursor),
                             all := s.bus.all + [row], emitters := s.bus.emitters[t := Wrote(row)]))
  {
  }

  lemma TailOnEmptied() returns (b: seq<System>, events: seq<Event>, one: Row)
    ensures Run(b, events) && one == Row(1, "i", "a", 0)
    ensures b[|b| - 1] == System(Bus(Log([], 1, 1), [one], [], 1, None, map[]), Watcher(Live, 0, "", 0, 1, 0, [], false))
  {
    var prior;
    prior, one := InsertAndPrune();
    b, events := [System(Bus(Log([], 1, 1), [one], [], 1, None, map[]), Asleep)], [];
    assert Starts(b[0], prior);
    b, events := Extend(b, events, Subscribe(0, ""));
    b, events := Extend(b, events, Anchor);
  }

  lemma InsertAndPrune() returns (prior: seq<Action>, one: Row)
    ensures After(prior) == (Log([], 1, 1), [one]) && one == Row(1, "i", "a", 0)
  {
    one := Row(1, "i", "a", 0);
    prior := InsertOne(one);
    PruneTakesAll(Log([one], 0, 1), 1, 100);
    AfterNext(prior, Pruning(1, 100));
    prior := prior + [Pruning(1, 100)];
  }

  lemma InsertOne(one: Row) returns (prior: seq<Action>)
    requires one.cursor == 1
    ensures After(prior) == (Log([one], 0, 1), [one])
  {
    AfterNext([], Inserting(one.instance, one.body, one.atMs));
    prior := [] + [Inserting(one.instance, one.body, one.atMs)];
    assert [] + [one] == [one];
  }

  // ---- a loss ----------------------------------------------------------------

  /** A stream is cut without a word: a replay passes the floor check, a prune takes everything,
      the page is empty, and the stream goes live. */
  lemma CutReplayLosesSilently() returns (b: seq<System>, events: seq<Event>)
    ensures Run(b, events)
    ensures ClockSteady(b[|b| - 1].bus.all)
    ensures var s := b[|b| - 1];
            && s.watch.phase.Live? && s.watch.pos == |s.bus.live| && !Sending(s.bus) && s.watch.cut
            && s.watch.anchor <= |s.bus.all|
            && s.watch.delivered != Select(s.bus.all[s.watch.anchor..], s.watch.filter)
  {
    var prior, one, two := TwoInserts();
    PruneBoth(one, two);
    b, events := CutInto(prior, one, two);
    assert b[|b| - 1].bus.all[1..] == [two];
    assert [two][..0] == [] && Select([two], "") == [two];
  }

  lemma TwoInserts() returns (prior: seq<Action>, one: Row, two: Row)
    ensures After(prior) == (Log([one, two], 0, 2), [one, two])
    ensures one.cursor == 1 && two.cursor == 2 && one.atMs == two.atMs == 0
  {
    one, two := Row(1, "i", "a", 0), Row(2, "i", "b", 0);
    prior := InsertOne(one);
    AfterNext(prior, Inserting("i", "b", 0));
    prior := prior + [Inserting("i", "b", 0)];
    assert [one] + [two] == [one, two];
  }

  lemma PruneBoth(one: Row, two: Row)
    requires one.atMs == two.atMs == 0 && one.cursor == 1 && two.cursor == 2
    ensures Prune(Log([one, two], 0, 2), 1, 100) == Log([], 2, 2)
  {
    PruneTakesAll(Log([one, two], 0, 2), 1, 100);
  }

  /** A replay from cursor 1 whose only row is pruned before its first page. */
  lemma CutInto(prior: seq<Action>, one: Row, two: Row) returns (b: seq<System>, events: seq<Event>)
    requires After(prior) == (Log([one, two], 0, 2), [one, two]) && one.cursor == 1 && two.cursor == 2
    requires Prune(Log([one, two], 0, 2), 1, 100) == Log([], 2, 2)
    ensures Run(b, events)
    ensures var s := b[|b| - 1];
            && s.bus == Bus(Log([], 2, 2), [one, two], [], 2, None, map[])
            && s.watch == Watcher(Live, 1, "", 0, 1, 1, [], true)
  {
    var bus := Bus(Log([one, two], 0, 2), [one, two], [], 2, None, map[]);
    var w := Asleep.(phase := Replaying, from := 1, anchor := 1, last := 1);
    b, events := [System(bus, Asleep)], [];
    assert Starts(b[0], prior);
    b, events := Extend(b, events, Subscribe(1, ""));
    b, events := Extend(b, events, Anchor);
    assert b[|b| - 1] == System(bus, w);
    b, events := Extend(b, events, Sweeping(1, 100));
    EmptyPageCuts(b[|b| - 1]);
    b, events := Extend(b, events, Page);
  }

  lemma Extend(b: seq<System>, events: seq<Event>, e: Event) returns (b': seq<System>, events': seq<Event>)
    requires Run(b, events) && Enabled(b[|b| - 1], e)
    ensures Run(b', events') && events' == events + [e] && b' == b + [Next(b[|b| - 1], e)]
  {
    b', events' := b + [Next(b[|b| - 1], e)], events + [e];
    assert b'[0] == b[0];
  }

  lemma EmptyPageCuts(s: System)
    requires s.watch.phase.Replaying? && s.watch.filter == "" && s.watch.anchor == s.watch.last == 1
    requires s.bus.log.rows == [] && |s.bus.all| == 2 && s.bus.base + s.watch.pos == 2
    ensures Next(s, Page) == s.(watch := s.watch.(phase := Live, cut := true))
  {
    var page := EventsAfter(s.bus.log, s.watch.last, s.watch.filter, EVENT_PAGE);
    assert page == [] && Reach(page, 1, 2) == 2;
    assert Matches(s.bus.all[1], "") && s.bus.all[1] !in s.bus.log.rows;
    assert PassesOver(s.bus, s.watch, page);
  }
}
