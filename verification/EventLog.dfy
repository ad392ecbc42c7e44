/**
 The event journal (crates/barista-node-agent/src/db.rs, tables `events` and
 `journal_meta`; service.rs `replay_journal`).
 */
module EventLog {
  import opened Prelude

  datatype Row = Row(cursor: nat, instance: string, body: string, atMs: int)

  /** `rows` in cursor order; `sequence` is the last cursor ever issued; `lastPruned` what
      survives an empty table. */
  datatype Log = Log(rows: seq<Row>, lastPruned: nat, sequence: nat)

  predicate Matches(row: Row, filter: string) {
    filter == "" || row.instance == filter
  }

  // ---- the queries -----------------------------------------------------------

  function Select(rows: seq<Row>, filter: string): (r: seq<Row>) {
    if rows == [] then []
    else Select(rows[..|rows| - 1], filter) + if Matches(rows[|rows| - 1], filter) then [rows[|rows| - 1]] else []
  }

  function RowsAfter(rows: seq<Row>, cursor: nat): (r: seq<Row>) {
    if rows == [] then []
    else RowsAfter(rows[..|rows| - 1], cursor) + if rows[|rows| - 1].cursor > cursor then [rows[|rows| - 1]] else []
  }

  /** The rows a pruning below `olderMs` may take, and those it may not. */
  function Older(rows: seq<Row>, olderMs: int): (r: seq<Row>) {
    if rows == [] then []
    else Older(rows[..|rows| - 1], olderMs) + if rows[|rows| - 1].atMs < olderMs then [rows[|rows| - 1]] else []
  }

  function Survivors(rows: seq<Row>, olderMs: int, highest: nat): (r: seq<Row>) {
    if rows == [] then []
    else
      var last := rows[|rows| - 1];
      Survivors(rows[..|rows| - 1], olderMs, highest) +
      if last.atMs < olderMs && last.cursor <= highest then [] else [last]
  }

  function Limit(rows: seq<Row>, limit: nat): (r: seq<Row>) {
    if limit == 0 || |rows| <= limit then rows else rows[..limit]
  }

  function EventsAfter(log: Log, cursor: nat, filter: string, limit: nat): (r: seq<Row>) {
    Limit(Select(RowsAfter(log.rows, cursor), filter), limit)
  }

  function Floor(log: Log): nat {
    if log.rows == [] then log.lastPruned
    else if log.rows[0].cursor == 0 then 0 else log.rows[0].cursor - 1
  }

  function Head(log: Log): nat {
    if log.rows == [] then 0 else log.rows[|log.rows| - 1].cursor
  }

  /** The highest cursor one chunk removes. */
  function Highest(rows: seq<Row>, olderMs: int, chunk: nat): Option<nat> {
    var stale := Older(rows, olderMs);
    var n := if chunk < |stale| then chunk else |stale|;
    if n == 0 then None else Some(stale[n - 1].cursor)
  }

  // ---- the transactions ------------------------------------------------------

  function Insert(log: Log, instance: string, body: string, nowMs: int): Log {
    log.(rows := log.rows + [Row(log.sequence + 1, instance, body, nowMs)], sequence := log.sequence + 1)
  }

  function Prune(log: Log, olderMs: int, chunk: nat): Log {
    var highest := Highest(log.rows, olderMs, chunk);
    if highest.None? then log
    else log.(rows := Survivors(log.rows, olderMs, highest.value),
              lastPruned := if highest.value > log.lastPruned then highest.value else log.lastPruned)
  }

  predicate Ascending(rows: seq<Row>) {
    forall i, j :: 0 <= i < j < |rows| ==> rows[i].cursor < rows[j].cursor
  }

  predicate WellFormed(log: Log) {
    Ascending(log.rows) && forall i :: 0 <= i < |log.rows| ==> 0 < log.rows[i].cursor <= log.sequence
  }

  predicate Wanted(r: Row, cursor: nat, filter: string) {
    r.cursor > cursor && (filter == "" || r.instance == filter)
  }

  /** A page answers a query: rows of the table after the cursor that belong to the instance asked
      for, or to any if none is, in cursor order; and all of them unless the limit cut it off. */
  ghost predicate Answers(rows: seq<Row>, cursor: nat, filter: string, limit: nat, page: seq<Row>) {
    && Ascending(page) && (forall r :: r in page ==> r in rows && Wanted(r, cursor, filter))
    && (limit == 0 || |page| < limit ==> forall r :: r in rows && Wanted(r, cursor, filter) ==> r in page)
  }

  class Events {
    var rows: seq<Row>
    var lastPruned: nat
    var sequence: nat

    ghost function Content(): Log
      reads this
    {
      Log(rows, lastPruned, sequence)
    }

    constructor ()
      ensures Content() == Log([], 0, 0)
    {
      rows, lastPruned, sequence := [], 0, 0;
    }

    method InsertEvent(instance: string, body: string, nowMs: int) returns (cursor: nat)
      modifies this
      ensures Content() == Insert(old(Content()), instance, body, nowMs)
      ensures cursor == sequence == old(sequence) + 1 && |rows| == old(|rows|) + 1 && rows[..|rows| - 1] == old(rows)
      ensures var row := rows[|rows| - 1];
              row.cursor == cursor && row.instance == instance && row.body == body && row.atMs == nowMs
    {
      sequence := sequence + 1;
      cursor := sequence;
      rows := rows + [Row(cursor, instance, body, nowMs)];
    }

    method JournalFloor() returns (floor: nat)
      ensures floor == Floor(Content())
    {
      if |rows| > 0 {
        floor := if rows[0].cursor == 0 then 0 else rows[0].cursor - 1;
      } else {
        floor := lastPruned;
      }
    }

    /** The highest cursor among the first `chunk` rows old enough to go. */
    method HighestStale(olderMs: int, chunk: nat) returns (highest: Option<nat>)
      ensures highest == Highest(rows, olderMs, chunk)
    {
      var taken, i := 0, 0;
      highest := None;
      while i < |rows| && taken < chunk
        invariant 0 <= i <= |rows|
        invariant taken == |Older(rows[..i], olderMs)| <= chunk
        invariant highest == if taken == 0 then None else Some(Older(rows[..i], olderMs)[taken - 1].cursor)
      {
        assert rows[..i + 1][..i] == rows[..i];
        if rows[i].atMs < olderMs {
          highest, taken := Some(rows[i].cursor), taken + 1;
        }
        i := i + 1;
      }
      OlderPrefix(rows, i, olderMs);
      assert i == |rows| ==> rows[..i] == rows;
    }

    method PruneEvents(olderMs: int, chunk: nat) returns (removed: nat)
      modifies this
      ensures Content() == Prune(old(Content()), olderMs, chunk)
      ensures removed == |old(rows)| - |rows|
    {
      var highest := HighestStale(olderMs, chunk);
      if highest.None? {
        return 0;
      }
      var kept: seq<Row> := [];
      for k := 0 to |rows|
        invariant kept == Survivors(rows[..k], olderMs, highest.value) && |kept| <= k
      {
        assert rows[..k + 1][..k] == rows[..k];
        if !(rows[k].atMs < olderMs && rows[k].cursor <= highest.value) {
          kept := kept + [rows[k]];
        }
      }
      assert rows[..|rows|] == rows;
      removed := |rows| - |kept|;
      rows := kept;
      lastPruned := if highest.value > lastPruned then highest.value else lastPruned;
    }

    /** The newest cursor: no row is beyond it, and unless the table is empty some row has it. */
    method HeadCursor() returns (head: nat)
      ensures forall r :: r in rows ==> r.cursor <= head
      ensures if rows == [] then head == 0 else exists r :: r in rows && r.cursor == head
      ensures WellFormed(Content()) ==> head == Head(Content())
    {
      head := 0;
      ghost var at := 0;
      for i := 0 to |rows|
        invariant forall k :: 0 <= k < i ==> rows[k].cursor <= head
        invariant if i == 0 then head == 0 else 0 <= at < i && rows[at].cursor == head
      {
        if i == 0 || rows[i].cursor > head {
          head, at := rows[i].cursor, i;
        }
      }
      assert rows != [] ==> rows[at] in rows;
    }

    method ReadAfter(cursor: nat, filter: string, limit: nat) returns (page: seq<Row>)
      ensures page == EventsAfter(Content(), cursor, filter, limit)
      ensures WellFormed(Content()) ==> Answers(rows, cursor, filter, limit, page)
      ensures limit > 0 ==> |page| <= limit && page <= EventsAfter(Content(), cursor, filter, 0)
    {
      var all: seq<Row> := [];
      var found: seq<Row> := [];
      for i := 0 to |rows|
        invariant all == RowsAfter(rows[..i], cursor)
        invariant found == Select(all, filter)
      {
        assert rows[..i + 1][..i] == rows[..i];
        if rows[i].cursor > cursor {
          assert (all + [rows[i]])[..|all|] == all;
          if Matches(rows[i], filter) {
            found := found + [rows[i]];
          }
          all := all + [rows[i]];
        }
      }
      assert rows[..|rows|] == rows;
      page := if limit == 0 || |found| <= limit then found else found[..limit];
      if WellFormed(Content()) {
        ReadAnswers(Content(), cursor, filter, limit);
      }
    }

    /** Page through the journal until a short page; nothing else writes meanwhile. */
    method ReplayJournal(from: nat, filter: string, limit: nat) returns (sent: seq<Row>, last: nat)
      requires limit > 0 && WellFormed(Content())
      ensures sent == EventsAfter(Content(), from, filter, 0)
      ensures last == Past(sent, from)
    {
      sent, last := [], from;
      ghost var full := EventsAfter(Content(), from, filter, 0);
      while true
        invariant Sent(from, full, sent, EventsAfter(Content(), last, filter, 0), last)
        decreases |full| - |sent|
      {
        var page := ReadAfter(last, filter, limit);
        ReplayAdvances(Content(), from, filter, limit, full, sent, last);
        sent := sent + page;
        last := Past(page, last);
        if |page| < limit {
          return;
        }
      }
    }
  }

  // ---- facts about the queries -----------------------------------------------

  lemma {:induction false} OlderPrefix(rows: seq<Row>, i: nat, olderMs: int)
    requires i <= |rows|
    ensures Older(rows[..i], olderMs) <= Older(rows, olderMs)
  {
    if i < |rows| {
      OlderPrefix(rows[..|rows| - 1], i, olderMs);
      assert rows[..|rows| - 1][..i] == rows[..i];
    } else {
      assert rows[..i] == rows;
    }
  }

  lemma {:induction false} CutAt(rows: seq<Row>, cursor: nat) returns (at: nat)
    requires Ascending(rows)
    ensures at <= |rows|
    ensures forall i :: 0 <= i < |rows| ==> (rows[i].cursor > cursor <==> i >= at)
  {
    at := |rows|;
    if rows != [] && rows[|rows| - 1].cursor > cursor {
      at := CutAt(rows[..|rows| - 1], cursor);
    }
  }

  lemma LastOfSuffix(rows: seq<Row>, at: nat)
    requires at < |rows|
    ensures rows[..|rows| - 1][at..] + [rows[|rows| - 1]] == rows[at..]
  {
  }

  lemma {:induction false} RowsFromCut(rows: seq<Row>, cursor: nat, at: nat)
    requires at <= |rows| && forall i :: 0 <= i < |rows| ==> (rows[i].cursor > cursor <==> i >= at)
    ensures RowsAfter(rows, cursor) == rows[at..]
  {
    if rows != [] {
      var n := |rows| - 1;
      var init := rows[..n];
      RowsFromCut(init, cursor, if at <= n then at else n);
      if at <= n {
        LastOfSuffix(rows, at);
      }
    }
  }

  /** The rows after a cursor of an ascending table are one of its suffixes. */
  lemma RowsAfterIsSuffix(rows: seq<Row>, cursor: nat) returns (at: nat)
    requires Ascending(rows)
    ensures at <= |rows| && RowsAfter(rows, cursor) == rows[at..]
    ensures forall i :: 0 <= i < |rows| ==> (rows[i].cursor > cursor <==> i >= at)
  {
    at := CutAt(rows, cursor);
    RowsFromCut(rows, cursor, at);
  }

  lemma {:induction false} SelectSplits(a: seq<Row>, b: seq<Row>, filter: string)
    ensures Select(a + b, filter) == Select(a, filter) + Select(b, filter)
  {
    if b == [] {
      assert a + b == a;
    } else {
      var n := |b| - 1;
      assert (a + b)[..|a + b| - 1] == a + b[..n];
      SelectSplits(a, b[..n], filter);
    }
  }

  lemma {:induction false} SelectUpTo(rows: seq<Row>, filter: string, n: nat) returns (at: nat)
    requires 0 < n <= |Select(rows, filter)|
    ensures 0 < at <= |rows| && rows[at - 1] == Select(rows, filter)[n - 1]
    ensures Select(rows[..at], filter) == Select(rows, filter)[..n]
  {
    var m := |rows| - 1;
    if n <= |Select(rows[..m], filter)| {
      at := SelectUpTo(rows[..m], filter, n);
      assert rows[..m][..at] == rows[..at];
    } else {
      at := m + 1;
      assert rows[..at] == rows;
    }
  }

  /** The n-th selected row splits the table: what is selected up to it is the first n. */
  lemma SelectPrefix(rows: seq<Row>, filter: string, n: nat) returns (at: nat)
    requires 0 < n <= |Select(rows, filter)|
    ensures 0 < at <= |rows| && rows[at - 1] == Select(rows, filter)[n - 1]
    ensures Select(rows[..at], filter) == Select(rows, filter)[..n]
    ensures Select(rows[at..], filter) == Select(rows, filter)[n..]
  {
    at := SelectUpTo(rows, filter, n);
    SelectSplits(rows[..at], rows[at..], filter);
    assert rows[..at] + rows[at..] == rows;
  }

  /** Reading on from the last row of a page continues exactly where the page stopped. */
  lemma PageThenRest(rows: seq<Row>, cursor: nat, filter: string, n: nat)
    requires Ascending(rows) && n <= |Select(RowsAfter(rows, cursor), filter)|
    ensures var found := Select(RowsAfter(rows, cursor), filter);
            found[n..] == if n == 0 then found else Select(RowsAfter(rows, found[n - 1].cursor), filter)
  {
    if n > 0 {
      var found := Select(RowsAfter(rows, cursor), filter);
      var from := RowsAfterIsSuffix(rows, cursor);
      var at := SelectPrefix(rows[from..], filter, n);
      assert rows[from..][at - 1] == rows[from + at - 1];
      var next := RowsAfterIsSuffix(rows, found[n - 1].cursor);
      assert rows[from + at - 1].cursor == found[n - 1].cursor && from + at - 1 < next;
      assert from + at < |rows| ==> rows[from + at].cursor > rows[from + at - 1].cursor;
      assert next == from + at;
      assert rows[from..][at..] == rows[next..];
    }
  }

  lemma {:induction false} SelectMembers(rows: seq<Row>, filter: string, r: Row)
    ensures r in Select(rows, filter) <==> r in rows && Matches(r, filter)
  {
    if rows != [] {
      var n := |rows| - 1;
      SelectMembers(rows[..n], filter, r);
      assert r in rows <==> r in rows[..n] || r == rows[n];
    }
  }

  lemma {:induction false} SelectAscends(rows: seq<Row>, filter: string)
    requires Ascending(rows)
    ensures Ascending(Select(rows, filter))
  {
    if rows != [] {
      var n := |rows| - 1;
      var found := Select(rows[..n], filter);
      SelectAscends(rows[..n], filter);
      forall i | 0 <= i < |found|
        ensures found[i].cursor < rows[n].cursor
      {
        SelectMembers(rows[..n], filter, found[i]);
      }
    }
  }

  /** What a read finds: exactly the rows after the cursor that belong to the instance asked
      for, or to any if none is, in cursor order. */
  lemma ServedMembers(log: Log, seen: nat, filter: string, r: Row)
    requires Ascending(log.rows)
    ensures r in EventsAfter(log, seen, filter, 0) <==>
              r in log.rows && r.cursor > seen && (filter == "" || r.instance == filter)
  {
    var at := RowsAfterIsSuffix(log.rows, seen);
    SelectMembers(log.rows[at..], filter, r);
    if r in log.rows && r.cursor > seen {
      var i :| 0 <= i < |log.rows| && log.rows[i] == r;
      assert log.rows[at..][i - at] == r;
    }
  }

  lemma ServedAscends(log: Log, seen: nat, filter: string)
    requires Ascending(log.rows)
    ensures Ascending(EventsAfter(log, seen, filter, 0))
  {
    var at := RowsAfterIsSuffix(log.rows, seen);
    SelectAscends(log.rows[at..], filter);
  }

  lemma ReadAnswers(log: Log, cursor: nat, filter: string, limit: nat)
    requires Ascending(log.rows)
    ensures Answers(log.rows, cursor, filter, limit, EventsAfter(log, cursor, filter, limit))
  {
    var full, page := EventsAfter(log, cursor, filter, 0), EventsAfter(log, cursor, filter, limit);
    ServedAscends(log, cursor, filter);
    forall r
      ensures r in full <==> r in log.rows && Wanted(r, cursor, filter)
    {
      ServedMembers(log, cursor, filter, r);
    }
    assert forall i :: 0 <= i < |page| ==> page[i] == full[i];
  }

  /** A replay has sent a prefix of `full` and has `rest` to go. */
  ghost predicate Sent(from: nat, full: seq<Row>, sent: seq<Row>, rest: seq<Row>, last: nat) {
    full == sent + rest && last == Past(sent, from)
  }

  /** One page moves rows from what is left to what was sent. */
  lemma PageAdvances(from: nat, full: seq<Row>, sent: seq<Row>, rest: seq<Row>, last: nat, limit: nat)
    requires Sent(from, full, sent, rest, last) && limit > 0
    ensures var page := Limit(rest, limit);
            && Sent(from, full, sent + page, rest[|page|..], Past(page, last))
            && (|page| < limit ==> sent + page == full)
  {
    var page := Limit(rest, limit);
    assert rest == page + rest[|page|..];
    assert sent + rest == (sent + page) + rest[|page|..];
  }

  /** The cursor a reader stands at after a page. */
  function Past(page: seq<Row>, last: nat): nat {
    if page == [] then last else page[|page| - 1].cursor
  }

  lemma ReadOn(log: Log, last: nat, filter: string, limit: nat)
    requires Ascending(log.rows) && limit > 0
    ensures var rest, page := EventsAfter(log, last, filter, 0), EventsAfter(log, last, filter, limit);
            page == Limit(rest, limit) && EventsAfter(log, Past(page, last), filter, 0) == rest[|page|..]
  {
    var found := Select(RowsAfter(log.rows, last), filter);
    PageThenRest(log.rows, last, filter, |Limit(found, limit)|);
  }

  lemma ReplayAdvances(log: Log, from: nat, filter: string, limit: nat, full: seq<Row>, sent: seq<Row>, last: nat)
    requires Ascending(log.rows) && limit > 0 && Sent(from, full, sent, EventsAfter(log, last, filter, 0), last)
    ensures var page := EventsAfter(log, last, filter, limit);
            && Sent(from, full, sent + page, EventsAfter(log, Past(page, last), filter, 0), Past(page, last))
            && (|page| < limit ==> sent + page == full)
  {
    ReadOn(log, last, filter, limit);
    PageAdvances(from, full, sent, EventsAfter(log, last, filter, 0), last, limit);
  }

  // ---------------------------------------------------------------------------
  // Histories
  // ---------------------------------------------------------------------------

  /** Everything ever inserted, oldest first: cursors count up from one. */
  predicate History(all: seq<Row>) {
    forall i :: 0 <= i < |all| ==> all[i].cursor == i + 1
  }

  /** The clock did not step back between insertions. */
  predicate ClockSteady(all: seq<Row>) {
    forall i, j :: 0 <= i < j < |all| ==> all[i].atMs <= all[j].atMs
  }

  datatype Action = Inserting(instance: string, body: string, nowMs: int) | Pruning(olderMs: int, chunk: nat)

  function Step(log: Log, a: Action): Log {
    match a
    case Inserting(instance, body, nowMs) => Insert(log, instance, body, nowMs)
    case Pruning(olderMs, chunk) => Prune(log, olderMs, chunk)
  }

  function Recorded(log: Log, all: seq<Row>, a: Action): seq<Row> {
    if a.Inserting? then all + [Row(log.sequence + 1, a.instance, a.body, a.nowMs)] else all
  }

  function After(actions: seq<Action>): (r: (Log, seq<Row>)) {
    if actions == [] then (Log([], 0, 0), [])
    else
      var (log, all) := After(actions[..|actions| - 1]);
      var a := actions[|actions| - 1];
      (Step(log, a), Recorded(log, all, a))
  }

  lemma AfterNext(actions: seq<Action>, a: Action)
    ensures var (log, all) := After(actions); After(actions + [a]) == (Step(log, a), Recorded(log, all, a))
  {
    assert (actions + [a])[..|actions|] == actions;
  }

  /** What is left is exactly what came after the first `k`. */
  ghost predicate Holds(log: Log, all: seq<Row>, k: nat) {
    History(all) && log.sequence == |all| && k <= |all| && log.rows == all[k..] && log.lastPruned == k
  }

  lemma HoldsFloor(log: Log, all: seq<Row>, k: nat)
    requires Holds(log, all, k)
    ensures Floor(log) == k && WellFormed(log)
  {
  }

  lemma {:induction false} OldCut(rows: seq<Row>, olderMs: int) returns (m: nat)
    requires ClockSteady(rows)
    ensures m <= |rows| && forall i :: 0 <= i < |rows| ==> (rows[i].atMs < olderMs <==> i < m)
  {
    m := |rows|;
    if rows != [] && rows[|rows| - 1].atMs >= olderMs {
      m := OldCut(rows[..|rows| - 1], olderMs);
    }
  }

  lemma {:induction false} OlderToCut(rows: seq<Row>, olderMs: int, m: nat)
    requires m <= |rows| && forall i :: 0 <= i < |rows| ==> (rows[i].atMs < olderMs <==> i < m)
    ensures Older(rows, olderMs) == rows[..m]
  {
    if rows != [] {
      var n := |rows| - 1;
      var init := rows[..n];
      OlderToCut(init, olderMs, if m <= n then m else n);
      assert m <= n ==> init[..m] == rows[..m];
      assert m > n ==> init[..n] + [rows[n]] == rows[..m];
    }
  }

  /** With a steady clock, what is old is a prefix. */
  lemma OlderIsPrefix(rows: seq<Row>, olderMs: int) returns (m: nat)
    requires ClockSteady(rows)
    ensures m <= |rows| && Older(rows, olderMs) == rows[..m]
    ensures forall i :: 0 <= i < |rows| ==> (rows[i].atMs < olderMs <==> i < m)
  {
    m := OldCut(rows, olderMs);
    OlderToCut(rows, olderMs, m);
  }

  lemma {:induction false} SurvivorsAreSuffix(rows: seq<Row>, olderMs: int, n: nat)
    requires Ascending(rows) && 0 < n <= |rows|
    requires forall i :: 0 <= i < n ==> rows[i].atMs < olderMs
    ensures Survivors(rows, olderMs, rows[n - 1].cursor) == rows[n..]
  {
    var m := |rows| - 1;
    if n <= m {
      SurvivorsAreSuffix(rows[..m], olderMs, n);
      assert rows[..m][n - 1] == rows[n - 1];
      assert rows[..m][n..] + [rows[m]] == rows[n..];
    } else {
      SurvivorsAllGone(rows, olderMs, rows[m].cursor);
    }
  }

  lemma {:induction false} SurvivorsAllGone(rows: seq<Row>, olderMs: int, highest: nat)
    requires forall i :: 0 <= i < |rows| ==> rows[i].atMs < olderMs && rows[i].cursor <= highest
    ensures Survivors(rows, olderMs, highest) == []
  {
    if rows != [] {
      SurvivorsAllGone(rows[..|rows| - 1], olderMs, highest);
    }
  }

  lemma {:induction false} AllOlder(rows: seq<Row>, olderMs: int)
    requires forall i :: 0 <= i < |rows| ==> rows[i].atMs < olderMs
    ensures Older(rows, olderMs) == rows
  {
    if rows != [] {
      AllOlder(rows[..|rows| - 1], olderMs);
    }
  }

  lemma HighestOfAll(rows: seq<Row>, olderMs: int, chunk: nat)
    requires rows != [] && |rows| <= chunk && Older(rows, olderMs) == rows
    ensures Highest(rows, olderMs, chunk) == Some(rows[|rows| - 1].cursor)
  {
  }

  lemma NoneAbove(rows: seq<Row>)
    requires rows != [] && Ascending(rows)
    ensures forall i :: 0 <= i < |rows| ==> rows[i].cursor <= rows[|rows| - 1].cursor
  {
  }

  /** Where every row is old, a large enough chunk takes them all. */
  lemma PruneTakesAll(log: Log, olderMs: int, chunk: nat)
    requires log.rows != [] && |log.rows| <= chunk && Ascending(log.rows)
    requires forall i :: 0 <= i < |log.rows| ==> log.rows[i].atMs < olderMs
    ensures var top := log.rows[|log.rows| - 1].cursor;
            Prune(log, olderMs, chunk) == Log([], if top > log.lastPruned then top else log.lastPruned, log.sequence)
  {
    var rows := log.rows;
    AllOlder(rows, olderMs);
    HighestOfAll(rows, olderMs, chunk);
    NoneAbove(rows);
    SurvivorsAllGone(rows, olderMs, rows[|rows| - 1].cursor);
  }

  /** With a steady clock one chunk takes the first `n` rows. */
  lemma PruneRows(log: Log, olderMs: int, chunk: nat) returns (n: nat)
    requires Ascending(log.rows) && ClockSteady(log.rows)
    ensures n <= |log.rows| && n <= chunk && Prune(log, olderMs, chunk).rows == log.rows[n..]
    ensures (forall i :: 0 <= i < n ==> log.rows[i].atMs < olderMs) && (n < chunk && n < |log.rows| ==> log.rows[n].atMs >= olderMs)
    ensures n == 0 ==> Prune(log, olderMs, chunk) == log
    ensures n > 0 ==> Prune(log, olderMs, chunk).lastPruned ==
                      if log.rows[n - 1].cursor > log.lastPruned then log.rows[n - 1].cursor else log.lastPruned
  {
    var m := OlderIsPrefix(log.rows, olderMs);
    n := if chunk < m then chunk else m;
    if n > 0 {
      SurvivorsAreSuffix(log.rows, olderMs, n);
    }
  }

  lemma PruneTakesAPrefix(log: Log, all: seq<Row>, k: nat, olderMs: int, chunk: nat) returns (k': nat)
    requires Holds(log, all, k) && ClockSteady(all)
    ensures k <= k' && Holds(Prune(log, olderMs, chunk), all, k')
    ensures k' <= k + chunk && (k' == k + chunk || k' == |all| || all[k'].atMs >= olderMs)
    ensures forall i :: k <= i < k' ==> all[i].atMs < olderMs
  {
    var n := PruneRows(log, olderMs, chunk);
    k' := k + n;
    SuffixOfSuffix(all, k, k');
    OldInHistory(all, log.rows, k, n, olderMs, chunk);
  }

  lemma OldInHistory(all: seq<Row>, rows: seq<Row>, k: nat, n: nat, olderMs: int, chunk: nat)
    requires k <= |all| && rows == all[k..] && n <= |rows| && n <= chunk
    requires (forall i :: 0 <= i < n ==> rows[i].atMs < olderMs) && (n < chunk && n < |rows| ==> rows[n].atMs >= olderMs)
    ensures n == chunk || k + n == |all| || all[k + n].atMs >= olderMs
    ensures forall i :: k <= i < k + n ==> all[i].atMs < olderMs
  {
    assert forall i :: k <= i < k + n ==> all[i] == rows[i - k];
  }

  lemma {:induction false} EveryRunHolds(actions: seq<Action>) returns (k: nat)
    requires ClockSteady(After(actions).1)
    ensures Holds(After(actions).0, After(actions).1, k)
  {
    if actions == [] {
      k := 0;
    } else {
      var n := |actions| - 1;
      var (log, all) := After(actions[..n]);
      SteadyPrefix(log, all, actions[n]);
      k := EveryRunHolds(actions[..n]);
      if actions[n].Inserting? {
        assert Recorded(log, all, actions[n])[k..] == all[k..] + [Recorded(log, all, actions[n])[|all|]];
      } else {
        k := PruneTakesAPrefix(log, all, k, actions[n].olderMs, actions[n].chunk);
      }
    }
  }

  lemma SteadyPrefix(log: Log, all: seq<Row>, a: Action)
    requires ClockSteady(Recorded(log, all, a))
    ensures ClockSteady(all)
  {
    var longer := Recorded(log, all, a);
    assert forall i :: 0 <= i < |all| ==> longer[i] == all[i];
  }

  /** After any mix of inserts and chunked prunes, from any cursor at or above the floor the
      journal still serves every event ever inserted after it, and nothing else. */
  lemma FloorIsHonest(actions: seq<Action>, cursor: nat, filter: string)
    requires ClockSteady(After(actions).1)
    requires Floor(After(actions).0) <= cursor <= |After(actions).1|
    ensures EventsAfter(After(actions).0, cursor, filter, 0) == Select(After(actions).1[cursor..], filter)
  {
    var (log, all) := After(actions);
    var k := EveryRunHolds(actions);
    HoldsFloor(log, all, k);
    ServesSuffix(log, all, k, cursor);
  }

  lemma SuffixOfSuffix(all: seq<Row>, k: nat, cursor: nat)
    requires k <= cursor <= |all|
    ensures all[k..][cursor - k..] == all[cursor..]
  {
  }

  lemma ServesSuffix(log: Log, all: seq<Row>, k: nat, cursor: nat)
    requires Holds(log, all, k) && k <= cursor <= |all|
    ensures RowsAfter(log.rows, cursor) == all[cursor..]
  {
    var at := cursor - k;
    assert forall i :: 0 <= i < |log.rows| ==> log.rows[i].cursor == k + i + 1;
    RowsFromCut(log.rows, cursor, at);
    SuffixOfSuffix(all, k, cursor);
  }

  // ---- when the clock steps back ---------------------------------------------

  /** Every row ever inserted above the floor is still there. */
  ghost predicate Honest(log: Log, all: seq<Row>) {
    forall i :: 0 <= i < |all| && all[i].cursor > Floor(log) ==> all[i] in log.rows
  }

  /** What holds of every journal, whatever its clock did. */
  ghost predicate Sound(log: Log, all: seq<Row>) {
    && History(all) && log.sequence == |all| && WellFormed(log) && log.lastPruned <= |all|
    && (forall r :: r in log.rows ==> r in all)
    && (forall i :: 0 <= i < |all| && all[i] !in log.rows ==> all[i].cursor <= log.lastPruned)
  }

  lemma {:induction false} SurvivorsMembers(rows: seq<Row>, olderMs: int, highest: nat)
    ensures forall r :: r in Survivors(rows, olderMs, highest) <==>
                        r in rows && !(r.atMs < olderMs && r.cursor <= highest)
  {
    if rows != [] {
      var n := |rows| - 1;
      SurvivorsMembers(rows[..n], olderMs, highest);
      assert rows == rows[..n] + [rows[n]];
    }
  }

  lemma {:induction false} SurvivorsAscend(rows: seq<Row>, olderMs: int, highest: nat)
    requires Ascending(rows)
    ensures Ascending(Survivors(rows, olderMs, highest))
  {
    if rows != [] {
      var n := |rows| - 1;
      SurvivorsAscend(rows[..n], olderMs, highest);
      SurvivorsMembers(rows[..n], olderMs, highest);
      var kept := Survivors(rows[..n], olderMs, highest);
      forall i | 0 <= i < |kept|
        ensures kept[i].cursor < rows[n].cursor
      {
        assert kept[i] in rows[..n];
      }
    }
  }

  lemma {:induction false} OlderMembers(rows: seq<Row>, olderMs: int)
    ensures forall r :: r in Older(rows, olderMs) <==> r in rows && r.atMs < olderMs
  {
    if rows != [] {
      var n := |rows| - 1;
      OlderMembers(rows[..n], olderMs);
      assert rows == rows[..n] + [rows[n]];
    }
  }

  lemma InsertKeepsWellFormed(log: Log, row: Row)
    requires WellFormed(log) && row.cursor == log.sequence + 1
    ensures WellFormed(Log(log.rows + [row], log.lastPruned, row.cursor))
  {
  }

  lemma SnocMembers(rows: seq<Row>, row: Row)
    ensures forall r :: r in rows + [row] <==> r in rows || r == row
  {
    assert (rows + [row])[|rows|] == row;
    assert forall i :: 0 <= i < |rows| ==> (rows + [row])[i] == rows[i];
  }

  lemma InsertKeepsSound(log: Log, all: seq<Row>, a: Action)
    requires Sound(log, all) && a.Inserting?
    ensures Sound(Step(log, a), Recorded(log, all, a))
  {
    var row := Row(log.sequence + 1, a.instance, a.body, a.nowMs);
    InsertKeepsWellFormed(log, row);
    SnocMembers(log.rows, row);
    SnocMembers(all, row);
    var longer := all + [row];
    forall i | 0 <= i < |longer| && longer[i] !in log.rows + [row]
      ensures longer[i].cursor <= log.lastPruned
    {
      assert i < |all| && longer[i] == all[i];
    }
  }

  lemma HighestIsACursor(log: Log, olderMs: int, chunk: nat) returns (top: Row)
    requires Highest(log.rows, olderMs, chunk).Some?
    ensures top in log.rows && top.atMs < olderMs && top.cursor == Highest(log.rows, olderMs, chunk).value
  {
    OlderMembers(log.rows, olderMs);
    var stale := Older(log.rows, olderMs);
    top := stale[(if chunk < |stale| then chunk else |stale|) - 1];
    assert top in stale;
  }

  lemma PruneKeepsSound(log: Log, all: seq<Row>, olderMs: int, chunk: nat)
    requires Sound(log, all)
    ensures Sound(Prune(log, olderMs, chunk), all)
  {
    if Highest(log.rows, olderMs, chunk).Some? {
      var highest := Highest(log.rows, olderMs, chunk).value;
      var after := Prune(log, olderMs, chunk);
      var top := HighestIsACursor(log, olderMs, chunk);
      SurvivorsMembers(log.rows, olderMs, highest);
      SurvivorsAscend(log.rows, olderMs, highest);
      forall i | 0 <= i < |after.rows|
        ensures 0 < after.rows[i].cursor <= log.sequence
      {
        assert after.rows[i] in log.rows;
      }
    }
  }

  /** Every run, whatever its clock did, leaves a sound journal. */
  lemma {:induction false} EveryRunIsSound(actions: seq<Action>)
    ensures Sound(After(actions).0, After(actions).1)
  {
    if actions != [] {
      var n := |actions| - 1;
      var (log, all) := After(actions[..n]);
      EveryRunIsSound(actions[..n]);
      match actions[n]
      case Inserting(_, _, _) => InsertKeepsSound(log, all, actions[n]);
      case Pruning(olderMs, chunk) => PruneKeepsSound(log, all, olderMs, chunk);
    }
  }

  lemma PruneRaisesFloor(log: Log, all: seq<Row>, olderMs: int, chunk: nat)
    requires Sound(log, all)
    ensures Floor(log) <= Floor(Prune(log, olderMs, chunk))
  {
    if Highest(log.rows, olderMs, chunk).Some? {
      var after := Prune(log, olderMs, chunk);
      var top := HighestIsACursor(log, olderMs, chunk);
      SurvivorsMembers(log.rows, olderMs, top.cursor);
      FloorBelow(log, top);
      if after.rows != [] {
        assert after.rows[0] in after.rows;
        FloorBelow(log, after.rows[0]);
      }
    }
  }

  /** The floor never goes down, whatever the clock does, an emptied table included. */
  lemma FloorNeverDecreases(actions: seq<Action>, a: Action)
    ensures Floor(After(actions).0) <= Floor(After(actions + [a]).0)
  {
    var (log, all) := After(actions);
    assert (actions + [a])[..|actions|] == actions;
    EveryRunIsSound(actions);
    match a
    case Inserting(_, _, _) =>
    case Pruning(olderMs, chunk) => PruneRaisesFloor(log, all, olderMs, chunk);
  }

  /** After any run, under any clock, a prune leaves an honest floor if and only if no row that
      is too young to go lies at or below the highest cursor it removes. */
  lemma PruneKeepsTheFloorHonestExactlyWhen(actions: seq<Action>, olderMs: int, chunk: nat)
    requires Honest(After(actions).0, After(actions).1)
    requires Highest(After(actions).0.rows, olderMs, chunk).Some?
    ensures var (log, all) := After(actions);
            var (log', all') := After(actions + [Pruning(olderMs, chunk)]);
            Honest(log', all') <==>
              forall r :: r in log.rows && r.cursor <= Highest(log.rows, olderMs, chunk).value ==> r.atMs < olderMs
  {
    assert (actions + [Pruning(olderMs, chunk)])[..|actions|] == actions;
    EveryRunIsSound(actions);
    HonestAfterPruneExactlyWhen(After(actions).0, After(actions).1, olderMs, chunk);
  }

  lemma HonestAfterPruneExactlyWhen(log: Log, all: seq<Row>, olderMs: int, chunk: nat)
    requires Sound(log, all) && Honest(log, all) && Highest(log.rows, olderMs, chunk).Some?
    ensures Honest(Prune(log, olderMs, chunk), all) <==>
              forall r :: r in log.rows && r.cursor <= Highest(log.rows, olderMs, chunk).value ==> r.atMs < olderMs
  {
    var highest := Highest(log.rows, olderMs, chunk).value;
    var after := Prune(log, olderMs, chunk);
    SurvivorsMembers(log.rows, olderMs, highest);
    if after.rows == [] {
      EmptiedIsHonest(log, all, olderMs, chunk);
    } else if after.rows[0].cursor > highest {
      PrefixGoneIsHonest(log, all, olderMs, chunk);
    } else {
      GapIsDishonest(log, all, olderMs, chunk);
    }
  }

  lemma PrefixGoneIsHonest(log: Log, all: seq<Row>, olderMs: int, chunk: nat)
    requires Sound(log, all) && Honest(log, all) && Highest(log.rows, olderMs, chunk).Some?
    requires var after := Prune(log, olderMs, chunk);
             after.rows != [] && after.rows[0].cursor > Highest(log.rows, olderMs, chunk).value
    ensures Honest(Prune(log, olderMs, chunk), all)
    ensures forall r :: r in log.rows && r.cursor <= Highest(log.rows, olderMs, chunk).value ==> r.atMs < olderMs
  {
    var highest := Highest(log.rows, olderMs, chunk).value;
    var after := Prune(log, olderMs, chunk);
    SurvivorsMembers(log.rows, olderMs, highest);
    SurvivorsAscend(log.rows, olderMs, highest);
    var first := after.rows[0];
    assert first in after.rows;
    FloorBelow(log, first);
    forall i | 0 <= i < |all| && all[i].cursor > Floor(after)
      ensures all[i] in after.rows
    {
      assert all[i] in log.rows;
    }
    forall r | r in log.rows && r.cursor <= highest
      ensures r.atMs < olderMs
    {
      if r in after.rows {
        FirstIsLeast(after.rows, r);
      }
    }
  }

  lemma GapIsDishonest(log: Log, all: seq<Row>, olderMs: int, chunk: nat)
    requires Sound(log, all) && Highest(log.rows, olderMs, chunk).Some?
    requires var after := Prune(log, olderMs, chunk);
             after.rows != [] && after.rows[0].cursor <= Highest(log.rows, olderMs, chunk).value
    ensures !Honest(Prune(log, olderMs, chunk), all)
    ensures exists r :: r in log.rows && r.cursor <= Highest(log.rows, olderMs, chunk).value && r.atMs >= olderMs
  {
    var highest := Highest(log.rows, olderMs, chunk).value;
    var after := Prune(log, olderMs, chunk);
    SurvivorsMembers(log.rows, olderMs, highest);
    OlderMembers(log.rows, olderMs);
    var first := after.rows[0];
    assert first in after.rows && first in log.rows;
    var stale := Older(log.rows, olderMs);
    var n := if chunk < |stale| then chunk else |stale|;
    var top := stale[n - 1];
    assert top in stale && top in log.rows && top in all;
    var i :| 0 <= i < |all| && all[i] == top;
    assert all[i].cursor > Floor(after) && all[i] !in after.rows;
  }

  lemma FirstIsLeast(rows: seq<Row>, r: Row)
    requires Ascending(rows) && r in rows
    ensures rows[0].cursor <= r.cursor
  {
    var i :| 0 <= i < |rows| && rows[i] == r;
    assert i > 0 ==> rows[0].cursor < rows[i].cursor;
  }

  lemma FloorBelow(log: Log, first: Row)
    requires WellFormed(log) && first in log.rows
    ensures Floor(log) < first.cursor
  {
    var i :| 0 <= i < |log.rows| && log.rows[i] == first;
    assert i > 0 ==> log.rows[0].cursor < log.rows[i].cursor;
  }

  lemma EmptiedIsHonest(log: Log, all: seq<Row>, olderMs: int, chunk: nat)
    requires Sound(log, all) && Honest(log, all) && Highest(log.rows, olderMs, chunk).Some?
    requires Prune(log, olderMs, chunk).rows == []
    ensures Honest(Prune(log, olderMs, chunk), all)
    ensures forall r :: r in log.rows ==> r.atMs < olderMs
  {
    var highest := Highest(log.rows, olderMs, chunk).value;
    SurvivorsMembers(log.rows, olderMs, highest);
    forall r | r in log.rows
      ensures r.atMs < olderMs && r.cursor <= highest
    {
      assert r !in Survivors(log.rows, olderMs, highest);
    }
  }

  /** A clock that steps back once: the young first row hides the loss of the second. */
  lemma SteppedBackClockHidesALoss() returns (actions: seq<Action>, cursor: nat)
    ensures var (log, all) := After(actions);
            Floor(log) <= cursor <= |all| && EventsAfter(log, cursor, "", 0) != Select(all[cursor..], "")
  {
    var a, b, p := Inserting("i", "a", 10), Inserting("i", "b", 5), Pruning(8, 100);
    var one, two := Row(1, "i", "a", 10), Row(2, "i", "b", 5);
    actions, cursor := [a, b, p], 1;
    assert [a, b, p][..2] == [a, b] && [a, b][..1] == [a] && [a][..0] == [];
    assert [] + [one] == [one] && [one] + [two] == [one, two];
    assert After([a]) == (Log([one], 0, 1), [one]);
    assert After([a, b]) == (Log([one, two], 0, 2), [one, two]);
    assert [one, two][..1] == [one] && [one][..0] == [] && [two][..0] == [];
    assert Older([one], 8) == [] && Older([one, two], 8) == [two];
    assert Survivors([one], 8, 2) == [one] && Survivors([one, two], 8, 2) == [one];
    assert After([a, b, p]) == (Log([one], 2, 2), [one, two]);
    assert [one, two][1..] == [two] && Select([two], "") == [two];
    assert RowsAfter([one], 1) == [];
  }
}
