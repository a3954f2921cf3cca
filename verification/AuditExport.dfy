/** Exporting the audit log page by page with a keyset cursor, while events are inserted and deleted
    between pages. */
module AuditExport {
  import opened Basics

  /** An event; the id orders like the uuid it stands for, and `row` is everything else. */
  datatype Event = Event(time: int, id: nat, category: string, eventType: string, row: string)

  /** Where a page ends, as the time and id of its last event. */
  datatype Cursor = Cursor(time: int, id: nat)

  /** The cursor parameter of a request: none, one that decodes, or one that does not. */
  datatype After = Beginning | At(cursor: Cursor) | BadCursor

  datatype Query = Query(
    scope: Event -> bool,
    since: Option<int>,
    until: Option<int>,
    category: string,
    eventType: string,
    after: After,
    limit: int,
    noHeader: bool)

  datatype Format = Csv | Jsonl | OtherFormat(formatName: string)

  datatype Line = Header | Row(event: Event)

  /** What a page of export produced; `failed` for a refused cursor or format. */
  datatype Result = Result(count: nat, next: Option<Cursor>, failed: bool)

  const MAX_LIMIT := 100000
  const DEFAULT_LIMIT := 10000

  // ---- order ----

  predicate Precedes(a: Cursor, b: Cursor) {
    a.time < b.time || (a.time == b.time && a.id < b.id)
  }

  function Position(e: Event): Cursor {
    Cursor(e.time, e.id)
  }

  predicate Before(e: Event, f: Event) {
    Precedes(Position(e), Position(f))
  }

  ghost predicate Increasing(events: seq<Event>) {
    forall i, j :: 0 <= i < j < |events| ==> Before(events[i], events[j])
  }

  /** A snapshot of the table: ids are its primary key, so no two events share a position. */
  ghost predicate Keyed(table: set<Event>) {
    forall e, f :: e in table && f in table && Position(e) == Position(f) ==> e == f
  }

  // ---- the rows of one page ----

  predicate Matches(q: Query, e: Event) {
    && q.scope(e)
    && (q.since.Some? ==> e.time >= q.since.value)
    && (q.until.Some? ==> e.time < q.until.value)
    && (q.category != "" ==> e.category == q.category)
    && (q.eventType != "" ==> e.eventType == q.eventType)
  }

  predicate BeyondCursor(after: After, c: Cursor) {
    after.At? ==> Precedes(after.cursor, c)
  }

  predicate Beyond(after: After, e: Event) {
    BeyondCursor(after, Position(e))
  }

  function Selected(q: Query, table: set<Event>): set<Event> {
    set e | e in table && Matches(q, e) && Beyond(q.after, e)
  }

  lemma {:induction false} LeastExists(events: set<Event>) returns (e: Event)
    requires events != {} && Keyed(events)
    ensures e in events && forall f :: f in events ==> f == e || Before(e, f)
  {
    e :| e in events;
    var first := e;
    var rest := events - {first};
    assert events == rest + {first};
    if rest != {} {
      var least := LeastExists(rest);
      assert Position(least) != Position(first);
      if !Before(first, least) { e := least; }
    }
  }

  function Least(events: set<Event>): (e: Event)
    requires events != {} && Keyed(events)
    ensures e in events && forall f :: f in events ==> f == e || Before(e, f)
  {
    assert exists e :: e in events && forall f :: f in events ==> f == e || Before(e, f) by {
      var e := LeastExists(events);
    }
    var e :| e in events && forall f :: f in events ==> f == e || Before(e, f);
    e
  }

  /** ORDER BY occurred_at, id LIMIT n. */
  function First(events: set<Event>, n: nat): seq<Event>
    requires Keyed(events)
    decreases events
  {
    if n == 0 || events == {} then []
    else [Least(events)] + First(events - {Least(events)}, n - 1)
  }

  lemma {:induction false} FirstFacts(events: set<Event>, n: nat)
    requires Keyed(events)
    ensures var r := First(events, n);
      && |r| == (if n < |events| then n else |events|)
      && Increasing(r)
      && (forall i :: 0 <= i < |r| ==> r[i] in events)
      && (forall e, i :: e in events && e !in r && 0 <= i < |r| ==> Before(r[i], e))
    decreases n
  {
    if n > 0 && events != {} {
      FirstFacts(events - {Least(events)}, n - 1);
    }
  }

  /** With room for all of them, every event is listed. */
  lemma FirstIsAll(events: set<Event>, n: nat)
    requires Keyed(events) && |events| <= n
    ensures forall e :: e in events ==> e in First(events, n)
    decreases n
  {
    if events != {} {
      FirstIsAll(events - {Least(events)}, n - 1);
    }
  }

  lemma {:induction false} FirstPrefix(events: set<Event>, n: nat)
    requires Keyed(events)
    ensures First(events, n) <= First(events, n + 1)
    decreases n
  {
    if n > 0 && events != {} {
      FirstPrefix(events - {Least(events)}, n - 1);
    }
  }

  lemma SelectedKeyed(q: Query, table: set<Event>)
    requires Keyed(table)
    ensures Keyed(Selected(q, table))
  {
  }

  function Limit(limit: int): (n: nat)
    ensures 0 < n <= MAX_LIMIT
  {
    if limit <= 0 then DEFAULT_LIMIT else if limit > MAX_LIMIT then MAX_LIMIT else limit
  }

  /** The events a page writes. */
  ghost function PageRows(q: Query, table: set<Event>): seq<Event>
    requires Keyed(table)
  {
    SelectedKeyed(q, table);
    First(Selected(q, table), Limit(q.limit))
  }

  /** Its cursor: set when more events were there. */
  ghost function PageNext(q: Query, table: set<Event>): Option<Cursor>
    requires Keyed(table)
  {
    var rows := PageRows(q, table);
    if |Selected(q, table)| > Limit(q.limit) && rows != [] then Some(Position(rows[|rows| - 1])) else None
  }

  function RowLines(events: seq<Event>): (lines: seq<Line>)
    ensures |lines| == |events| && forall i :: 0 <= i < |events| ==> lines[i] == Row(events[i])
  {
    seq(|events|, i requires 0 <= i < |events| => Row(events[i]))
  }

  function HeaderLines(q: Query, format: Format): seq<Line> {
    if format.Csv? && !q.noHeader then [Header] else []
  }

  predicate Accepted(q: Query, format: Format) {
    !q.after.BadCursor? && !format.OtherFormat?
  }

  /** The row loop: rows up to the limit are written; one more only shows that there is a next page. */
  method WriteRows(rows: seq<Event>, limit: nat, head: seq<Line>)
    returns (count: nat, next: Option<Cursor>, lines: seq<Line>)
    requires limit > 0
    ensures count == (if |rows| < limit then |rows| else limit)
    ensures next == if |rows| > limit then Some(Position(rows[limit - 1])) else None
    ensures lines == head + RowLines(rows[..count])
  {
    count, next, lines := 0, None, head;
    var last := Cursor(0, 0);
    for i := 0 to |rows|
      invariant count == i <= limit && next == None
      invariant lines == head + RowLines(rows[..i])
      invariant i > 0 ==> last == Position(rows[i - 1])
    {
      if count == limit {
        next := Some(last);
        break;
      }
      lines := lines + [Row(rows[i])];
      count := count + 1;
      last := Position(rows[i]);
    }
  }

  /** The limit+1 rows a page asks for, against the rows it writes. */
  lemma OneExtraRow(q: Query, table: set<Event>)
    requires Keyed(table)
    ensures Keyed(Selected(q, table))
    ensures var rows, limit := First(Selected(q, table), Limit(q.limit) + 1), Limit(q.limit);
      && PageRows(q, table) == rows[..if |rows| < limit then |rows| else limit]
      && PageNext(q, table) == if |rows| > limit then Some(Position(rows[limit - 1])) else None
  {
    SelectedKeyed(q, table);
    var sel, limit := Selected(q, table), Limit(q.limit);
    FirstPrefix(sel, limit);
    FirstFacts(sel, limit);
    FirstFacts(sel, limit + 1);
  }

  /** One page: its result and the lines it writes. */
  method Stream(table: set<Event>, q: Query, format: Format) returns (res: Result, lines: seq<Line>)
    requires Keyed(table)
    ensures !Accepted(q, format) ==> res == Result(0, None, true) && lines == []
    ensures Accepted(q, format) ==>
      && res == Result(|PageRows(q, table)|, PageNext(q, table), false)
      && lines == HeaderLines(q, format) + RowLines(PageRows(q, table))
      && LinesAre(lines, q, format, PageRows(q, table))
  {
    HeadedLines(q, format, PageRows(q, table));
    var limit := Limit(q.limit);
    if q.after.BadCursor? {
      return Result(0, None, true), [];
    }
    OneExtraRow(q, table);
    var rows := First(Selected(q, table), limit + 1);
    if format.OtherFormat? {
      return Result(0, None, true), [];
    }
    var count, next;
    count, next, lines := WriteRows(rows, limit, HeaderLines(q, format));
    res := Result(count, next, false);
  }

  // ---- page after page ----

  /** A run over the snapshots its pages saw: what was written, which page comes next, and whether
      the last page said there was no more. */
  datatype Run = Run(rows: seq<Event>, end: nat, finished: bool)

  ghost predicate AllKeyed(tables: seq<set<Event>>) {
    forall i :: 0 <= i < |tables| ==> Keyed(tables[i])
  }

  function Following(q: Query, c: Cursor): Query {
    q.(after := At(c), noHeader := true)
  }

  /** Page n and the pages after it; tables[n] is the table as page n finds it. */
  ghost function Pages(tables: seq<set<Event>>, n: nat, q: Query): (r: Run)
    requires AllKeyed(tables) && n <= |tables|
    ensures n <= r.end <= |tables|
    decreases |tables| - n
  {
    if n == |tables| then Run([], n, false)
    else
      var rows, next := PageRows(q, tables[n]), PageNext(q, tables[n]);
      if next.None? then Run(rows, n + 1, true)
      else
        var rest := Pages(tables, n + 1, Following(q, next.value));
        Run(rows + rest.rows, rest.end, rest.finished)
  }

  /** The run `all` has written `written` and goes on as `rest`. */
  ghost predicate GoesOn(all: Run, written: seq<Event>, rest: Run) {
    all.rows == written + rest.rows && all.finished == rest.finished
  }

  lemma GoesOnNext(all: Run, written: seq<Event>, page: seq<Event>, rest: Run)
    requires GoesOn(all, written, Run(page + rest.rows, rest.end, rest.finished))
    ensures GoesOn(all, written + page, rest)
  {
  }

  /** Between pages: out holds the header and the rows written so far (nothing before the first page,
      which writes the header), and the run goes on as `rest`. */
  ghost predicate Progress(all: Run, header: seq<Line>, rest: Run, next: seq<Line>, written: seq<Event>, out: seq<Line>) {
    GoesOn(all, written, rest) && out + next == header + RowLines(written)
  }

  lemma ProgressStart(all: Run, header: seq<Line>)
    ensures Progress(all, header, all, header, [], [])
  {
    assert RowLines([]) == [];
  }

  lemma ProgressNext(all: Run, header: seq<Line>, rest: Run, next: seq<Line>, written: seq<Event>, out: seq<Line>,
                     page: seq<Event>, rest': Run, lines: seq<Line>)
    requires Progress(all, header, rest, next, written, out)
    requires rest == Run(page + rest'.rows, rest'.end, rest'.finished) && lines == next + RowLines(page)
    ensures Progress(all, header, rest', [], written + page, out + lines)
  {
    GoesOnNext(all, written, page, rest');
    assert RowLines(written + page) == RowLines(written) + RowLines(page);
    assert out + lines + [] == (out + next) + RowLines(page);
  }

  lemma ProgressDone(all: Run, header: seq<Line>, rest: Run, written: seq<Event>, out: seq<Line>)
    requires Progress(all, header, rest, [], written, out) && rest.rows == []
    ensures all.finished == rest.finished && |all.rows| == |written| && out == header + RowLines(all.rows)
  {
    assert written + [] == written && out + [] == out;
  }

  /** What is left of the run once page n is written. */
  ghost function RestAfter(tables: seq<set<Event>>, n: nat, q: Query): (rest: Run)
    requires AllKeyed(tables) && n < |tables|
    ensures Pages(tables, n, q) == Run(PageRows(q, tables[n]) + rest.rows, rest.end, rest.finished)
    ensures PageNext(q, tables[n]).None? ==> rest.rows == [] && rest.finished
    ensures PageNext(q, tables[n]).Some? ==> rest == Pages(tables, n + 1, Following(q, PageNext(q, tables[n]).value))
  {
    var page, next := PageRows(q, tables[n]), PageNext(q, tables[n]);
    assert page + [] == page;
    if next.None? then Run([], n + 1, true) else Pages(tables, n + 1, Following(q, next.value))
  }

  /** What the whole export writes and counts. */
  ghost predicate Exported(run: Run, header: seq<Line>, total: nat, finished: bool, out: seq<Line>) {
    finished == run.finished && total == |run.rows| && out == header + RowLines(run.rows)
  }

  /** Before page n: total rows are written, and page n is asked for with q. */
  ghost predicate Paging(all: Run, header: seq<Line>, rest: Run, next: seq<Line>, total: nat, out: seq<Line>) {
    exists written :: |written| == total && Progress(all, header, rest, next, written, out)
  }

  lemma PagingStart(all: Run, header: seq<Line>)
    ensures Paging(all, header, all, header, 0, [])
  {
    var none: seq<Event> := [];
    ProgressStart(all, header);
    assert |none| == 0;
  }

  lemma PagingNext(all: Run, header: seq<Line>, rest: Run, next: seq<Line>, total: nat, out: seq<Line>,
                   page: seq<Event>, rest': Run, lines: seq<Line>)
    requires Paging(all, header, rest, next, total, out)
    requires rest == Run(page + rest'.rows, rest'.end, rest'.finished) && lines == next + RowLines(page)
    ensures Paging(all, header, rest', [], total + |page|, out + lines)
  {
    var written :| |written| == total && Progress(all, header, rest, next, written, out);
    ProgressNext(all, header, rest, next, written, out, page, rest', lines);
    assert |written + page| == total + |page|;
  }

  lemma PagingDone(all: Run, header: seq<Line>, rest: Run, total: nat, out: seq<Line>)
    requires Paging(all, header, rest, [], total, out) && rest.rows == []
    ensures Exported(all, header, total, rest.finished, out)
  {
    var written :| |written| == total && Progress(all, header, rest, [], written, out);
    ProgressDone(all, header, rest, written, out);
  }

  /** One turn of the loop: page n is appended, and the run goes on from its cursor or is over. */
  method AppendPage(tables: seq<set<Event>>, n: nat, q: Query, format: Format, total0: nat, out0: seq<Line>,
                    ghost all: Run, ghost header: seq<Line>)
    returns (res: Result, total: nat, out: seq<Line>)
    requires AllKeyed(tables) && n < |tables|
    requires Paging(all, header, Pages(tables, n, q), HeaderLines(q, format), total0, out0)
    ensures res.failed <==> !Accepted(q, format)
    ensures !res.failed && res.next.None? ==> Exported(all, header, total, true, out)
    ensures !res.failed && res.next.Some? ==>
      Paging(all, header, Pages(tables, n + 1, Following(q, res.next.value)), [], total, out)
  {
    var lines;
    res, lines := Stream(tables[n], q, format);
    total, out := total0 + res.count, out0;
    if !res.failed {
      ghost var rest := RestAfter(tables, n, q);
      PagingNext(all, header, Pages(tables, n, q), HeaderLines(q, format), total0, out0, PageRows(q, tables[n]), rest, lines);
      out := out + lines;
      if res.next.None? {
        PagingDone(all, header, rest, total, out);
      }
    }
  }

  /** Page after page of MAX_LIMIT; tables[k] is the table as page k finds it. */
  method StreamAll(tables: seq<set<Event>>, q0: Query, format: Format)
    returns (total: nat, failed: bool, out: seq<Line>, finished: bool)
    requires AllKeyed(tables) && tables != []
    ensures failed <==> q0.after.BadCursor? || format.OtherFormat?
    ensures failed ==> total == 0 && out == []
    ensures !failed ==>
      var run := Pages(tables, 0, q0.(limit := MAX_LIMIT));
      finished == run.finished && total == |run.rows| && LinesAre(out, q0, format, run.rows)
  {
    total, failed, out, finished := StreamPages(tables, q0, format);
    if !failed { HeadedLines(q0, format, Pages(tables, 0, q0.(limit := MAX_LIMIT)).rows); }
  }

  method StreamPages(tables: seq<set<Event>>, q0: Query, format: Format)
    returns (total: nat, failed: bool, out: seq<Line>, finished: bool)
    requires AllKeyed(tables) && tables != []
    ensures failed <==> !Accepted(q0, format)
    ensures failed ==> total == 0 && out == []
    ensures !failed ==> Exported(Pages(tables, 0, q0.(limit := MAX_LIMIT)), HeaderLines(q0, format), total, finished, out)
  {
    var q := q0.(limit := MAX_LIMIT);
    ghost var all, header := Pages(tables, 0, q), HeaderLines(q0, format);
    total, out := 0, [];
    PagingStart(all, header);
    var n := 0;
    while n < |tables|
      invariant 0 <= n <= |tables|
      invariant Paging(all, header, Pages(tables, n, q), HeaderLines(q, format), total, out)
      invariant Accepted(q, format) <==> Accepted(q0, format)
      invariant n > 0 ==> Accepted(q, format) && HeaderLines(q, format) == []
    {
      var res;
      res, total, out := AppendPage(tables, n, q, format, total, out, all, header);
      if res.failed {
        return 0, true, [], false;
      }
      if res.next.None? {
        return total, false, out, true;
      }
      q := Following(q, res.next.value);
      n := n + 1;
    }
    PagingDone(all, header, Pages(tables, n, q), total, out);
    return total, false, out, false;
  }

  // ---- safety of every run ----

  lemma {:induction false} PagesIncreasing(tables: seq<set<Event>>, n: nat, q: Query)
    requires AllKeyed(tables) && n <= |tables|
    ensures var r := Pages(tables, n, q).rows;
      Increasing(r) && forall i :: 0 <= i < |r| ==> Beyond(q.after, r[i])
    decreases |tables| - n
  {
    if n < |tables| {
      var rows, next := PageRows(q, tables[n]), PageNext(q, tables[n]);
      FirstFacts(Selected(q, tables[n]), Limit(q.limit));
      if next.Some? {
        var q' := Following(q, next.value);
        PagesIncreasing(tables, n + 1, q');
        IncreasingConcat(rows, Pages(tables, n + 1, q').rows);
      }
    }
  }

  lemma IncreasingConcat(a: seq<Event>, b: seq<Event>)
    requires Increasing(a) && Increasing(b) && a != []
    requires forall j :: 0 <= j < |b| ==> Before(a[|a| - 1], b[j])
    ensures Increasing(a + b)
    ensures forall j :: 0 <= j < |b| ==> Before(a[0], b[j])
  {
    var r := a + b;
    forall i, j | 0 <= i < j < |r|
      ensures Before(r[i], r[j])
    {
      if i < |a| <= j {
        assert i == |a| - 1 || Before(a[i], a[|a| - 1]);
        assert Before(a[|a| - 1], b[j - |a|]);
      }
    }
    forall j | 0 <= j < |b|
      ensures Before(a[0], b[j])
    {
      assert Before(r[0], r[|a| + j]);
    }
  }

  lemma {:induction false} PagesSound(tables: seq<set<Event>>, n: nat, q: Query, e: Event)
    requires AllKeyed(tables) && n <= |tables| && e in Pages(tables, n, q).rows
    ensures Matches(q, e) && exists m :: n <= m < Pages(tables, n, q).end && e in tables[m]
    decreases |tables| - n
  {
    FirstFacts(Selected(q, tables[n]), Limit(q.limit));
    if e in PageRows(q, tables[n]) {
      assert e in tables[n];
    } else {
      PagesSound(tables, n + 1, Following(q, PageNext(q, tables[n]).value), e);
    }
  }

  /** The event is one the query asks for: in its scope, not before `since`, before `until`, and of the
      category and type named. */
  ghost predicate AskedFor(q: Query, e: Event) {
    && q.scope(e)
    && (forall t :: q.since == Some(t) ==> t <= e.time)
    && (forall t :: q.until == Some(t) ==> e.time < t)
    && (q.category == "" || q.category == e.category)
    && (q.eventType == "" || q.eventType == e.eventType)
  }

  lemma MatchesIsAsked(q: Query, e: Event)
    ensures Matches(q, e) <==> AskedFor(q, e)
  {
  }

  /** The table has an event asked for at this position, whatever its other columns hold. */
  ghost predicate HasAt(table: set<Event>, q: Query, c: Cursor) {
    exists e :: e in table && e.time == c.time && e.id == c.id && AskedFor(q, e)
  }

  ghost predicate Listed(rows: seq<Event>, c: Cursor) {
    exists i :: 0 <= i < |rows| && Position(rows[i]) == c
  }

  lemma ListedFirst(a: seq<Event>, b: seq<Event>, c: Cursor)
    requires Listed(a, c) || Listed(b, c)
    ensures Listed(a + b, c)
  {
    if Listed(a, c) {
      var i :| 0 <= i < |a| && Position(a[i]) == c;
      assert (a + b)[i] == a[i];
    } else {
      var i :| 0 <= i < |b| && Position(b[i]) == c;
      assert (a + b)[|a| + i] == b[i];
    }
  }

  /** A matching event is written, or is beyond the page's cursor. */
  lemma PageListsOrPasses(q: Query, table: set<Event>, c: Cursor)
    requires Keyed(table) && HasAt(table, q, c) && BeyondCursor(q.after, c)
    ensures Listed(PageRows(q, table), c) ||
      (PageNext(q, table).Some? && BeyondCursor(At(PageNext(q, table).value), c))
  {
    var e :| e in table && e.time == c.time && e.id == c.id && AskedFor(q, e);
    MatchesIsAsked(q, e);
    var sel, rows := Selected(q, table), PageRows(q, table);
    FirstFacts(sel, Limit(q.limit));
    if e in rows {
      var i :| 0 <= i < |rows| && rows[i] == e;
    } else {
      if |sel| <= Limit(q.limit) { FirstIsAll(sel, Limit(q.limit)); }
      assert Before(rows[|rows| - 1], e);
    }
  }

  /** An event that matches and is there for every page is written by the time the run finishes. */
  lemma {:induction false} PagesComplete(tables: seq<set<Event>>, n: nat, q: Query, c: Cursor)
    requires AllKeyed(tables) && n <= |tables| && Pages(tables, n, q).finished && BeyondCursor(q.after, c)
    requires forall m :: n <= m < Pages(tables, n, q).end ==> HasAt(tables[m], q, c)
    ensures Listed(Pages(tables, n, q).rows, c)
    decreases |tables| - n
  {
    var rows, next := PageRows(q, tables[n]), PageNext(q, tables[n]);
    PageListsOrPasses(q, tables[n], c);
    if next.Some? {
      var q' := Following(q, next.value);
      if !Listed(rows, c) {
        forall m | n + 1 <= m < Pages(tables, n + 1, q').end
          ensures HasAt(tables[m], q', c)
        {
          var e :| e in tables[m] && e.time == c.time && e.id == c.id && AskedFor(q, e);
          assert AskedFor(q', e);
        }
        PagesComplete(tables, n + 1, q', c);
      }
      ListedFirst(rows, Pages(tables, n + 1, q').rows, c);
    }
  }

  /** The rows have this position once. */
  ghost predicate OnlyAt(rows: seq<Event>, c: Cursor, i: nat) {
    i < |rows| && Position(rows[i]) == c && forall j :: 0 <= j < |rows| && Position(rows[j]) == c ==> j == i
  }

  lemma ListedOnce(rows: seq<Event>, c: Cursor)
    requires Increasing(rows) && Listed(rows, c)
    ensures exists i :: OnlyAt(rows, c, i)
  {
    var i :| 0 <= i < |rows| && Position(rows[i]) == c;
    assert OnlyAt(rows, c, i);
  }

  /** A matching event was at this position for every page of the run, though its joined columns may
      have changed. */
  ghost predicate ThereThroughout(tables: seq<set<Event>>, run: Run, q: Query, c: Cursor) {
    run.end <= |tables| && forall m :: 0 <= m < run.end ==> HasAt(tables[m], q, c)
  }

  /** The position comes after the cursor the export starts from, if it has one. */
  predicate AfterStart(q: Query, c: Cursor) {
    q.after.At? ==> q.after.cursor.time < c.time || (q.after.cursor.time == c.time && q.after.cursor.id < c.id)
  }

  /** Under any inserts, deletes and changes between pages: events come out strictly in (time, id)
      order, every one of them was asked for and in the table when a page was read, none comes twice, and
      a finished run has written exactly once every event asked for that was there throughout. */
  lemma ExportIsExact(tables: seq<set<Event>>, q: Query, e: Event)
    requires AllKeyed(tables)
    ensures var run := Pages(tables, 0, q);
      && (forall i, j :: 0 <= i < j < |run.rows| ==>
            run.rows[i].time < run.rows[j].time || (run.rows[i].time == run.rows[j].time && run.rows[i].id < run.rows[j].id))
      && (e in run.rows ==> AskedFor(q, e) && AfterStart(q, Position(e)) && exists m :: 0 <= m < run.end && e in tables[m])
      && (e in run.rows ==> exists i :: OnlyAt(run.rows, Cursor(e.time, e.id), i))
      && (run.finished && AfterStart(q, Cursor(e.time, e.id)) && ThereThroughout(tables, run, q, Cursor(e.time, e.id)) ==>
            exists i :: OnlyAt(run.rows, Cursor(e.time, e.id), i))
  {
    var run := Pages(tables, 0, q);
    PagesIncreasing(tables, 0, q);
    assert forall i, j :: 0 <= i < j < |run.rows| ==> Before(run.rows[i], run.rows[j]);
    MatchesIsAsked(q, e);
    if e in run.rows {
      PagesSound(tables, 0, q, e);
      var i :| 0 <= i < |run.rows| && run.rows[i] == e;
      assert Listed(run.rows, Position(e));
      ListedOnce(run.rows, Position(e));
    }
    if run.finished && AfterStart(q, Position(e)) && ThereThroughout(tables, run, q, Position(e)) {
      PagesComplete(tables, 0, q, Position(e));
      ListedOnce(run.rows, Position(e));
    }
  }

  // ---- pages and lines ----

  /** A page holds at most as many events as asked for - 10000 if that is not said, never more than 100000 -
      and names a next page exactly when more were there; then it is full. */
  lemma PageSize(q: Query, table: set<Event>)
    requires Keyed(table)
    ensures var size := if q.limit <= 0 then 10000 else if q.limit > 100000 then 100000 else q.limit;
      var there := set e | e in table && AskedFor(q, e) && AfterStart(q, Position(e));
      && |PageRows(q, table)| == (if |there| <= size then |there| else size)
      && (PageNext(q, table).Some? <==> |there| > size)
      && (PageNext(q, table).Some? ==>
            PageNext(q, table).value == Cursor(PageRows(q, table)[size - 1].time, PageRows(q, table)[size - 1].id))
  {
    var there := set e | e in table && AskedFor(q, e) && AfterStart(q, Position(e));
    assert there == Selected(q, table) by {
      forall e ensures Matches(q, e) <==> AskedFor(q, e) { MatchesIsAsked(q, e); }
    }
    SelectedKeyed(q, table);
    FirstFacts(there, Limit(q.limit));
  }

  /** The lines are one header, exactly for CSV unless it is left out, and then the events in order. */
  ghost predicate LinesAre(out: seq<Line>, q: Query, format: Format, rows: seq<Event>) {
    var skip := if format.Csv? && !q.noHeader then 1 else 0;
    && |out| == skip + |rows|
    && (skip == 1 ==> out[0] == Header)
    && forall k :: 0 <= k < |rows| ==> out[skip + k] == Row(rows[k])
  }

  lemma HeadedLines(q: Query, format: Format, rows: seq<Event>)
    ensures LinesAre(HeaderLines(q, format) + RowLines(rows), q, format, rows)
  {
    HeadedBy(HeaderLines(q, format), RowLines(rows), rows);
  }

  lemma HeadedBy(head: seq<Line>, lines: seq<Line>, rows: seq<Event>)
    requires |lines| == |rows| && forall k :: 0 <= k < |rows| ==> lines[k] == Row(rows[k])
    ensures |head + lines| == |head| + |rows| && (head != [] ==> (head + lines)[0] == head[0])
    ensures forall k :: 0 <= k < |rows| ==> (head + lines)[|head| + k] == Row(rows[k])
  {
  }
}
