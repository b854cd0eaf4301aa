/** The resumable trace-v3 backfill: keyset pages, projected row by row, and a durable cursor behind them. */
module Backfill {
  import opened Sorting
  import opened Wrappers

  /** (approved_at, case_id) */
  type Key(==, !new)

  datatype Row = Row(key: Key, traceV3: bool)

  /** The approved snapshots in keyset order. */
  datatype Source = Source(rows: seq<Row>, before: (Key, Key) -> bool) {
    ghost predicate Ordered() {
      && (forall a, b, c :: before(a, b) && before(b, c) ==> before(a, c))
      && (forall a, b :: before(a, b) || before(b, a) || a == b)
      && (forall a :: !before(a, a))
      && (forall i, j :: 0 <= i < j < |rows| ==> before(rows[i].key, rows[j].key))
    }

    /** The query's strict comparison; without a cursor every row comes after it. */
    predicate After(cursor: Option<Key>, key: Key) {
      cursor.None? || before(cursor.value, key)
    }

    /** How many of the first `n` rows lie at or below the cursor. */
    function Passed(cursor: Option<Key>, n: nat): (r: nat)
      requires n <= |rows|
      ensures r <= n
    {
      if n == 0 then 0
      else Passed(cursor, n - 1) + if After(cursor, rows[n - 1].key) then 0 else 1
    }

    /** SELECT … WHERE key > cursor ORDER BY key LIMIT limit */
    function Page(cursor: Option<Key>, limit: nat): seq<Row> {
      var start := Passed(cursor, |rows|);
      rows[start..if start + limit < |rows| then start + limit else |rows|]
    }

    lemma {:induction false} PassedIsPrefix(cursor: Option<Key>, n: nat)
      requires Ordered() && n <= |rows|
      ensures forall i :: 0 <= i < n ==> (i < Passed(cursor, n) <==> !After(cursor, rows[i].key))
    {
      if 0 < n {
        PassedIsPrefix(cursor, n - 1);
        if !After(cursor, rows[n - 1].key) {
          forall i | 0 <= i < n ensures !After(cursor, rows[i].key) {
            assert i < n - 1 ==> before(rows[i].key, rows[n - 1].key);
          }
        }
      }
    }

    /** Every trace-v3 row at or below the cursor is projected. */
    ghost predicate Covered(cursor: Option<Key>, projected: set<Key>) {
      forall row :: row in rows && row.traceV3 && !After(cursor, row.key) ==> row.key in projected
    }

    lemma CoveredGrows(cursor: Option<Key>, projected: set<Key>, more: set<Key>)
      requires Covered(cursor, projected) && projected <= more
      ensures Covered(cursor, more)
    {
    }

    ghost predicate Projected(page: seq<Row>, n: nat, projected: set<Key>)
      requires n <= |page|
    {
      forall i :: 0 <= i < n && page[i].traceV3 ==> page[i].key in projected
    }

    ghost function TraceKeys(): set<Key> {
      set row | row in rows && row.traceV3 :: row.key
    }

    /** A page that is projected completely lets the cursor move to its last row. */
    lemma PageCovers(cursor: Option<Key>, limit: nat, projected: set<Key>)
      requires Ordered() && Covered(cursor, projected) && Page(cursor, limit) != []
      requires Projected(Page(cursor, limit), |Page(cursor, limit)|, projected)
      ensures Covered(Some(Page(cursor, limit)[|Page(cursor, limit)| - 1].key), projected)
    {
      var page, start := Page(cursor, limit), Passed(cursor, |rows|);
      var last := start + |page| - 1;
      PassedIsPrefix(cursor, |rows|);
      forall row | row in rows && row.traceV3 && !After(Some(page[|page| - 1].key), row.key)
          ensures row.key in projected {
        var i :| 0 <= i < |rows| && rows[i] == row;
        assert rows[last] == page[|page| - 1];
        assert i <= last;
        if start <= i {
          assert page[i - start] == row;
        }
      }
    }

    /** The rows after the cursor, in their order. */
    ghost function Following(cursor: Option<Key>): seq<Row> {
      Filter((row: Row) => After(cursor, row.key), rows)
    }

    lemma FollowingIs(cursor: Option<Key>)
      requires Ordered()
      ensures Following(cursor) == rows[Passed(cursor, |rows|)..]
    {
      PassedIsPrefix(cursor, |rows|);
      FilterBehind((row: Row) => After(cursor, row.key), (row: Row) => true, rows, Passed(cursor, |rows|));
      FilterAll((row: Row) => true, rows[Passed(cursor, |rows|)..]);
    }

    /** A page is what the query says: of the rows after the cursor the first ones, up to the limit. */
    lemma PageIs(cursor: Option<Key>, limit: nat)
      requires Ordered()
      ensures Page(cursor, limit) == if limit < |Following(cursor)| then Following(cursor)[..limit]
              else Following(cursor)
    {
      FollowingIs(cursor);
    }

    /** The trace-v3 rows after the cursor. */
    ghost function Left(cursor: Option<Key>): seq<Row> {
      Filter((row: Row) => row.traceV3 && After(cursor, row.key), rows)
    }

    lemma LeftIs(cursor: Option<Key>)
      requires Ordered()
      ensures Left(cursor) == Filter((row: Row) => row.traceV3, rows[Passed(cursor, |rows|)..])
    {
      PassedIsPrefix(cursor, |rows|);
      var left := (row: Row) => row.traceV3 && After(cursor, row.key);
      FilterBehind(left, (row: Row) => row.traceV3, rows, Passed(cursor, |rows|));
    }

    /** A cursor on a row has passed the rows up to it. */
    lemma PassedAt(last: nat)
      requires Ordered() && last < |rows|
      ensures Passed(Some(rows[last].key), |rows|) == last + 1
    {
      var passed := Passed(Some(rows[last].key), |rows|);
      PassedIsPrefix(Some(rows[last].key), |rows|);
      assert last < passed;
      assert last + 1 < |rows| ==> before(rows[last].key, rows[last + 1].key);
    }

    lemma PassedBehind(cursor: Option<Key>, limit: nat, page: seq<Row>, key: Key)
      requires Ordered() && page == Page(cursor, limit) && page != [] && key == page[|page| - 1].key
      ensures Passed(Some(key), |rows|) == Passed(cursor, |rows|) + |page| <= |rows|
    {
      PassedAt(Passed(cursor, |rows|) + |page| - 1);
    }

    /** A page's last row divides what is left into the page's rows and the rest. */
    lemma PageTakes(cursor: Option<Key>, limit: nat, page: seq<Row>, key: Key)
      requires Ordered() && page == Page(cursor, limit) && page != [] && key == page[|page| - 1].key
      ensures |Left(cursor)| == |Filter((row: Row) => row.traceV3, page)| + |Left(Some(key))|
    {
      PassedBehind(cursor, limit, page, key);
      assert rows[Passed(cursor, |rows|)..] == page + rows[Passed(Some(key), |rows|)..];
      FilterAppend((row: Row) => row.traceV3, page, rows[Passed(Some(key), |rows|)..]);
      LeftIs(cursor);
      LeftIs(Some(key));
    }

    /** An empty page means that nothing is left above the cursor. */
    lemma NothingLeft(cursor: Option<Key>, limit: nat, projected: set<Key>)
      requires Ordered() && 0 < limit && Covered(cursor, projected) && Page(cursor, limit) == []
      ensures TraceKeys() <= projected
    {
      PassedIsPrefix(cursor, |rows|);
      forall row | row in rows && row.traceV3 ensures row.key in projected {
        var i :| 0 <= i < |rows| && rows[i] == row;
        assert i < Passed(cursor, |rows|);
      }
    }

    lemma NothingAfter(cursor: Option<Key>, limit: nat)
      requires Ordered() && 0 < limit && Page(cursor, limit) == []
      ensures Left(cursor) == [] && forall row :: row in rows ==> !After(cursor, row.key)
    {
      PassedIsPrefix(cursor, |rows|);
      FilterNone((row: Row) => row.traceV3 && After(cursor, row.key), rows);
    }

    lemma MovesOn(cursor: Option<Key>, limit: nat)
      requires Ordered() && Page(cursor, limit) != []
      ensures Passed(cursor, |rows|) < Passed(Some(Page(cursor, limit)[|Page(cursor, limit)| - 1].key), |rows|)
    {
      var page, start := Page(cursor, limit), Passed(cursor, |rows|);
      var next := Some(page[|page| - 1].key);
      PassedIsPrefix(cursor, |rows|);
      PassedIsPrefix(next, |rows|);
      var last := start + |page| - 1;
      assert rows[last] == page[|page| - 1] && !After(next, rows[last].key);
    }

    lemma PagePassed(cursor: Option<Key>, limit: nat, before: set<Key>, after: set<Key>, page: seq<Row>, key: Key)
      requires Ordered() && page == Page(cursor, limit) && page != [] && key == page[|page| - 1].key
      requires Covered(cursor, before) && before <= after && Projected(page, |page|, after)
      ensures Covered(Some(key), after) && Passed(cursor, |rows|) < Passed(Some(key), |rows|)
    {
      CoveredGrows(cursor, before, after);
      PageCovers(cursor, limit, after);
      MovesOn(cursor, limit);
    }
  }

  // ---- Any number of runs at once, failing anywhere

  /** Where a run stands; `cursor` is its own copy. */
  datatype Worker =
    | Ready(cursor: Option<Key>)
    | Writing(cursor: Option<Key>, page: seq<Row>, done: nat, failed: bool)
    | Saving(key: Key)

  datatype State = State(cursor: Option<Key>, projected: set<Key>, workers: map<int, Worker>)

  datatype Event =
    | Load(run: int)
    | Fetch(run: int, limit: nat)
    /** A write may take effect and still be reported as failed, but not the other way round. */
    | Write(run: int, applied: bool, reported: bool)
    | Save(run: int, applied: bool, reported: bool)
    /** A failed load or fetch, a refused page, the batch limit, or a crash. */
    | Stop(run: int)

  /** The worker after one row; only trace-v3 rows are written at all. */
  function Wrote(w: Worker, reported: bool): Worker
    requires w.Writing? && w.done < |w.page|
  {
    w.(done := w.done + 1, failed := w.failed || (w.page[w.done].traceV3 && !reported))
  }

  function Step(src: Source, hasKey: Key -> bool, s: State, e: Event): State {
    match e
    case Load(run) =>
      if run in s.workers then s else s.(workers := s.workers[run := Ready(s.cursor)])
    case Fetch(run, limit) =>
      if run in s.workers && s.workers[run].Ready? && 0 < limit then
        var c := s.workers[run].cursor;
        var page := src.Page(c, limit);
        s.(workers := if page == [] then s.workers - {run} else s.workers[run := Writing(c, page, 0, false)])
      else s
    case Write(run, applied, reported) =>
      if run in s.workers && s.workers[run].Writing? then
        var w := s.workers[run];
        if w.done < |w.page| then
          var row := w.page[w.done];
          State(s.cursor, if row.traceV3 && (applied || reported) then s.projected + {row.key} else s.projected,
                s.workers[run := Wrote(w, reported)])
        else if w.failed || w.page == [] || !hasKey(w.page[|w.page| - 1].key) then s.(workers := s.workers - {run})
        else s.(workers := s.workers[run := Saving(w.page[|w.page| - 1].key)])
      else s
    case Save(run, applied, reported) =>
      if run in s.workers && s.workers[run].Saving? then
        var key := s.workers[run].key;
        State(if applied || reported then Some(key) else s.cursor, s.projected,
              if reported then s.workers[run := Ready(Some(key))] else s.workers - {run})
      else s
    case Stop(run) => s.(workers := s.workers - {run})
  }

  function Run(src: Source, hasKey: Key -> bool, s: State, events: seq<Event>): State
    decreases |events|
  {
    if events == [] then s else Run(src, hasKey, Step(src, hasKey, s, events[0]), events[1..])
  }

  ghost predicate WorkerSafe(src: Source, w: Worker, projected: set<Key>) {
    match w
    case Ready(cursor) => src.Covered(cursor, projected)
    case Writing(cursor, page, done, failed) =>
      && src.Covered(cursor, projected)
      && (exists limit: nat :: page == src.Page(cursor, limit))
      && page != [] && done <= |page|
      && (!failed ==> src.Projected(page, done, projected))
    case Saving(key) => src.Covered(Some(key), projected)
  }

  ghost predicate Safe(src: Source, s: State) {
    && src.Covered(s.cursor, s.projected)
    && s.projected <= src.TraceKeys()
    && forall run :: run in s.workers ==> WorkerSafe(src, s.workers[run], s.projected)
  }

  lemma SafeWhenMore(src: Source, w: Worker, projected: set<Key>, more: set<Key>)
    requires WorkerSafe(src, w, projected) && projected <= more
    ensures WorkerSafe(src, w, more)
  {
  }

  lemma PageRows(src: Source, cursor: Option<Key>, limit: nat)
    ensures forall row :: row in src.Page(cursor, limit) ==> row in src.rows
  {
  }

  /** One worker moves on while the durable state stays. */
  lemma OneWorkerMoves(src: Source, s: State, run: int, w: Worker)
    requires Safe(src, s) && WorkerSafe(src, w, s.projected)
    ensures Safe(src, s.(workers := s.workers[run := w])) && Safe(src, s.(workers := s.workers - {run}))
  {
  }

  lemma StopIsSafe(src: Source, s: State, run: int)
    requires Safe(src, s)
    ensures Safe(src, s.(workers := s.workers - {run}))
  {
  }

  lemma FetchIsSafe(src: Source, hasKey: Key -> bool, s: State, run: int, limit: nat)
    requires Safe(src, s)
    ensures Safe(src, Step(src, hasKey, s, Fetch(run, limit)))
  {
    if run in s.workers && s.workers[run].Ready? && 0 < limit {
      var cursor := s.workers[run].cursor;
      var page := src.Page(cursor, limit);
      if page == [] {
        StopIsSafe(src, s, run);
      } else {
        OneWorkerMoves(src, s, run, Writing(cursor, page, 0, false));
      }
    }
  }

  /** One more trace-v3 row of the source database is projected. */
  lemma MoreIsSafe(src: Source, s: State, row: Row)
    requires Safe(src, s) && row in src.rows && row.traceV3
    ensures Safe(src, s.(projected := s.projected + {row.key}))
  {
    var more := s.projected + {row.key};
    src.CoveredGrows(s.cursor, s.projected, more);
    forall run | run in s.workers ensures WorkerSafe(src, s.workers[run], more) {
      SafeWhenMore(src, s.workers[run], s.projected, more);
    }
  }

  lemma WriteIsSafe(src: Source, hasKey: Key -> bool, s: State, run: int, applied: bool, reported: bool)
    requires src.Ordered() && Safe(src, s)
    ensures Safe(src, Step(src, hasKey, s, Write(run, applied, reported)))
  {
    if run in s.workers && s.workers[run].Writing? {
      var w := s.workers[run];
      if w.done < |w.page| {
        RowIsSafe(src, hasKey, s, run, applied, reported);
      } else if w.failed || !hasKey(w.page[|w.page| - 1].key) {
        StopIsSafe(src, s, run);
      } else {
        var limit: nat :| w.page == src.Page(w.cursor, limit);
        src.PageCovers(w.cursor, limit, s.projected);
        OneWorkerMoves(src, s, run, Saving(w.page[|w.page| - 1].key));
      }
    }
  }

  lemma RowIsSafe(src: Source, hasKey: Key -> bool, s: State, run: int, applied: bool, reported: bool)
    requires Safe(src, s) && run in s.workers && s.workers[run].Writing? && s.workers[run].done < |s.workers[run].page|
    ensures Safe(src, Step(src, hasKey, s, Write(run, applied, reported)))
  {
    var w := s.workers[run];
    var row := w.page[w.done];
    var effect := row.traceV3 && (applied || reported);
    var mid := if effect then s.(projected := s.projected + {row.key}) else s;
    if effect {
      PageRowIsListed(src, w, s.projected);
      MoreIsSafe(src, s, row);
    }
    WroteIsSafe(src, w, mid.projected, reported);
    OneWorkerMoves(src, mid, run, Wrote(w, reported));
  }

  lemma PageRowIsListed(src: Source, w: Worker, projected: set<Key>)
    requires WorkerSafe(src, w, projected) && w.Writing? && w.done < |w.page|
    ensures w.page[w.done] in src.rows
  {
    var limit: nat :| w.page == src.Page(w.cursor, limit);
    PageRows(src, w.cursor, limit);
    assert w.page[w.done] in w.page;
  }

  lemma WroteIsSafe(src: Source, w: Worker, projected: set<Key>, reported: bool)
    requires WorkerSafe(src, w, projected) && w.Writing? && w.done < |w.page|
    requires w.page[w.done].traceV3 && reported ==> w.page[w.done].key in projected
    ensures WorkerSafe(src, Wrote(w, reported), projected)
  {
  }

  lemma SaveIsSafe(src: Source, hasKey: Key -> bool, s: State, run: int, applied: bool, reported: bool)
    requires Safe(src, s)
    ensures Safe(src, Step(src, hasKey, s, Save(run, applied, reported)))
  {
    if run in s.workers && s.workers[run].Saving? {
      var key := s.workers[run].key;
      var mid := s.(cursor := if applied || reported then Some(key) else s.cursor);
      assert Safe(src, mid);
      if reported {
        OneWorkerMoves(src, mid, run, Ready(Some(key)));
      } else {
        StopIsSafe(src, mid, run);
      }
    }
  }

  lemma StepIsSafe(src: Source, hasKey: Key -> bool, s: State, e: Event)
    requires src.Ordered() && Safe(src, s)
    ensures Safe(src, Step(src, hasKey, s, e)) && s.projected <= Step(src, hasKey, s, e).projected
  {
    match e
    case Load(run) => OneWorkerMoves(src, s, run, Ready(s.cursor));
    case Fetch(run, limit) => FetchIsSafe(src, hasKey, s, run, limit);
    case Write(run, applied, reported) => WriteIsSafe(src, hasKey, s, run, applied, reported);
    case Save(run, applied, reported) => SaveIsSafe(src, hasKey, s, run, applied, reported);
    case Stop(run) => StopIsSafe(src, s, run);
  }

  /** In every run of runs the cursor only ever stands on projected ground. */
  lemma {:induction false} AlwaysCovered(src: Source, hasKey: Key -> bool, s: State, events: seq<Event>)
    requires src.Ordered() && Safe(src, s)
    ensures Safe(src, Run(src, hasKey, s, events)) && s.projected <= Run(src, hasKey, s, events).projected
    decreases |events|
  {
    if events != [] {
      StepIsSafe(src, hasKey, s, events[0]);
      AlwaysCovered(src, hasKey, Step(src, hasKey, s, events[0]), events[1..]);
    }
  }

  const FRESH := State(None, {}, map[])

  /**
   * From an empty database, after any events of any runs: every trace-v3 row
   * at or below the durable cursor is projected, and nothing else is.
   */
  lemma FreshHistoryIsCovered(src: Source, hasKey: Key -> bool, events: seq<Event>)
    requires src.Ordered()
    ensures var s := Run(src, hasKey, FRESH, events);
      src.Covered(s.cursor, s.projected) && s.projected <= src.TraceKeys()
  {
    AlwaysCovered(src, hasKey, FRESH, events);
  }

  /** A run that is told there are no more rows leaves nothing behind. */
  lemma DoneMeansAll(src: Source, hasKey: Key -> bool, s: State, run: int, limit: nat)
    requires src.Ordered() && Safe(src, s) && run in s.workers && s.workers[run].Ready? && 0 < limit
    requires run !in Step(src, hasKey, s, Fetch(run, limit)).workers
    ensures s.projected == src.TraceKeys()
  {
    src.NothingLeft(s.workers[run].cursor, limit, s.projected);
  }

  // ---- One run

  datatype Exit = Complete | Paused | SourceFailed | WriteFailed | NoKeyset | CursorFailed

  /** The durable state a run works on. Only a healthy store never reports a failure. */
  class Store {
    const src: Source
    const healthy: bool
    var cursor: Option<Key>
    var projected: set<Key>

    constructor (src: Source, healthy: bool, cursor: Option<Key>, projected: set<Key>)
      ensures this.src == src && this.healthy == healthy && this.cursor == cursor && this.projected == projected
    {
      this.src, this.healthy, this.cursor, this.projected := src, healthy, cursor, projected;
    }

    method Succeeds() returns (ok: bool)
      ensures healthy ==> ok
    {
      var luck: bool := *;
      ok := healthy || luck;
    }

    method ProjectRow(row: Row) returns (ok: bool, ghost applied: bool)
      modifies this`projected
      ensures projected == if applied || ok then old(projected) + {row.key} else old(projected)
      ensures healthy ==> ok
    {
      ok := Succeeds();
      var lucky: bool := *;
      applied := ok || lucky;
      if ok || lucky {
        projected := projected + {row.key};
      }
    }

    method SaveCursor(key: Key) returns (ok: bool, ghost applied: bool)
      modifies this`cursor
      ensures cursor == if applied || ok then Some(key) else old(cursor)
      ensures healthy ==> ok
    {
      ok := Succeeds();
      var lucky: bool := *;
      applied := ok || lucky;
      if ok || lucky {
        cursor := Some(key);
      }
    }

    /** The events so far led from `start` to the durable state as it is, with these workers. */
    ghost predicate At(hasKey: Key -> bool, start: State, trace: seq<Event>, workers: map<int, Worker>)
      reads this`cursor, this`projected
    {
      Run(src, hasKey, start, trace) == State(cursor, projected, workers)
    }

    /** Pages are asked for with this limit only. */
    ghost static predicate Sized(trace: seq<Event>, limit: nat) {
      forall e :: e in trace && e.Fetch? ==> e.limit == limit
    }

    /** What has been projected since, and for which rows. */
    ghost predicate Grown(before: set<Key>)
      reads this`projected
    {
      before <= projected <= before + src.TraceKeys()
    }

    /** Projects the trace-v3 rows of a page; one failure does not stop the others. */
    method WritePage(hasKey: Key -> bool, here: Option<Key>, page: seq<Row>, ghost start: State,
                     ghost trace0: seq<Event>)
      returns (written: nat, failed: nat, ghost trace: seq<Event>)
      requires forall row :: row in page ==> row in src.rows
      requires At(hasKey, start, trace0, map[0 := Writing(here, page, 0, false)])
      modifies this`projected
      ensures Grown(old(projected))
      ensures failed == 0 ==> src.Projected(page, |page|, projected)
      ensures written + failed == |Filter((row: Row) => row.traceV3, page)|
      ensures healthy ==> failed == 0
      ensures At(hasKey, start, trace, map[0 := Writing(here, page, |page|, failed != 0)])
      ensures forall n :: Sized(trace0, n) ==> Sized(trace, n)
    {
      written, failed, trace := 0, 0, trace0;
      for i := 0 to |page|
        invariant Grown(old(projected))
        invariant failed == 0 ==> src.Projected(page, i, projected)
        invariant written + failed == |Filter((row: Row) => row.traceV3, page[..i])| && (healthy ==> failed == 0)
        invariant At(hasKey, start, trace, map[0 := Writing(here, page, i, failed != 0)])
        invariant forall n :: Sized(trace0, n) ==> Sized(trace, n)
      {
        ghost var w := Writing(here, page, i, failed != 0);
        FilterSnoc((row: Row) => row.traceV3, page, i);
        var ok := true;
        ghost var applied := false;
        if page[i].traceV3 {
          assert page[i] in src.rows;
          ok, applied := ProjectRow(page[i]);
          written, failed := if ok then written + 1 else written, if ok then failed else failed + 1;
        }
        RunSnoc(src, hasKey, start, trace, Write(0, applied, ok));
        OnlyWorker(w, Wrote(w, ok));
        trace := trace + [Write(0, applied, ok)];
      }
      assert page[..|page|] == page;
    }

    /**
     * One page: fetched, written, and only then passed by the cursor. None
     * means that the run goes on behind the page.
     */
    method OnePage(hasKey: Key -> bool, limit: nat, here: Option<Key>, ghost start: State, ghost trace0: seq<Event>)
      returns (exit: Option<Exit>, next: Option<Key>, written: nat, ghost trace: seq<Event>)
      requires src.Ordered() && 0 < limit && src.Covered(cursor, projected) && src.Covered(here, projected)
      requires At(hasKey, start, trace0, map[0 := Ready(here)])
      modifies this`cursor, this`projected
      ensures src.Covered(cursor, projected) && Grown(old(projected))
      ensures At(hasKey, start, trace, if exit.None? then map[0 := Ready(next)] else map[])
      ensures exit.None? ==> src.Covered(next, projected) && src.Passed(here, |src.rows|) < src.Passed(next, |src.rows|)
      ensures exit.None? ==> cursor == next && written + |src.Left(next)| == |src.Left(here)|
      ensures written <= |src.Left(here)|
      ensures exit == Some(Complete) ==> src.TraceKeys() <= projected && src.Page(here, limit) == [] && written == 0
      ensures exit == Some(Complete) ==> cursor == old(cursor)
      ensures exit == Some(NoKeyset) ==> exists row :: row in src.rows && !hasKey(row.key)
      ensures Sized(trace0, limit) ==> Sized(trace, limit)
      ensures exit != Some(Paused) && (healthy && exit.Some? ==> exit.value == Complete || exit.value == NoKeyset)
    {
      next, written, trace := here, 0, trace0;
      var fetched := Succeeds();
      if !fetched {
        trace := Ends(hasKey, start, trace, Ready(here), Stop(0));
        return Some(SourceFailed), next, written, trace;
      }
      var page := src.Page(here, limit);
      if page == [] {
        src.NothingLeft(here, limit, projected);
        trace := Ends(hasKey, start, trace, Ready(here), Fetch(0, limit));
        return Some(Complete), next, written, trace;
      }
      trace := MovesOn(hasKey, start, trace, Ready(here), Fetch(0, limit), Writing(here, page, 0, false));
      exit, next, written, trace := PassPage(hasKey, limit, here, page, start, trace);
    }

    /** A fetched page: written, and then passed by the cursor. */
    method PassPage(hasKey: Key -> bool, ghost limit: nat, here: Option<Key>, page: seq<Row>, ghost start: State,
                    ghost trace0: seq<Event>)
      returns (exit: Option<Exit>, next: Option<Key>, written: nat, ghost trace: seq<Event>)
      requires src.Ordered() && page == src.Page(here, limit) && page != []
      requires src.Covered(cursor, projected) && src.Covered(here, projected)
      requires At(hasKey, start, trace0, map[0 := Writing(here, page, 0, false)])
      modifies this`cursor, this`projected
      ensures src.Covered(cursor, projected) && Grown(old(projected))
      ensures At(hasKey, start, trace, if exit.None? then map[0 := Ready(next)] else map[])
      ensures exit.None? ==> src.Covered(next, projected) && src.Passed(here, |src.rows|) < src.Passed(next, |src.rows|)
      ensures exit.None? ==> cursor == next && written + |src.Left(next)| == |src.Left(here)|
      ensures written <= |src.Left(here)|
      ensures exit == Some(NoKeyset) ==> exists row :: row in src.rows && !hasKey(row.key)
      ensures forall n :: Sized(trace0, n) ==> Sized(trace, n)
      ensures exit.Some? ==> exit.value == WriteFailed || exit.value == NoKeyset || exit.value == CursorFailed
      ensures healthy && exit.Some? ==> exit.value == NoKeyset
    {
      PageRows(src, here, limit);
      var failed;
      written, failed, trace := WritePage(hasKey, here, page, start, trace0);
      src.CoveredGrows(cursor, old(projected), projected);
      src.CoveredGrows(here, old(projected), projected);
      next := here;
      var key := page[|page| - 1].key;
      assert page[|page| - 1] in page;
      src.PageTakes(here, limit, page, key);
      exit, trace := LeavePage(hasKey, limit, here, page, failed, start, trace);
      if exit.None? {
        next := Some(key);
      }
    }

    /** A written page is passed by the cursor, unless a row failed or its last row lacks its keys. */
    method LeavePage(hasKey: Key -> bool, ghost limit: nat, here: Option<Key>, page: seq<Row>, failed: nat,
                     ghost start: State, ghost trace0: seq<Event>)
      returns (exit: Option<Exit>, ghost trace: seq<Event>)
      requires src.Ordered() && page == src.Page(here, limit) && page != []
      requires src.Covered(cursor, projected) && src.Covered(here, projected)
      requires failed == 0 ==> src.Projected(page, |page|, projected)
      requires At(hasKey, start, trace0, map[0 := Writing(here, page, |page|, failed != 0)])
      modifies this`cursor
      ensures src.Covered(cursor, projected)
      ensures var next := Some(page[|page| - 1].key);
        && At(hasKey, start, trace, if exit.None? then map[0 := Ready(next)] else map[])
        && (exit.None? ==> cursor == next && src.Covered(next, projected))
        && (exit.None? ==> src.Passed(here, |src.rows|) < src.Passed(next, |src.rows|))
      ensures exit == Some(WriteFailed) <==> failed != 0
      ensures exit == Some(NoKeyset) <==> failed == 0 && !hasKey(page[|page| - 1].key)
      ensures exit.None? || exit.value == WriteFailed || exit.value == NoKeyset || exit.value == CursorFailed
      ensures healthy ==> exit != Some(CursorFailed)
      ensures forall n :: Sized(trace0, n) ==> Sized(trace, n)
    {
      trace := trace0;
      var key := page[|page| - 1].key;
      ghost var w := Writing(here, page, |page|, failed != 0);
      PageDone(src, hasKey, State(cursor, projected, map[0 := w]), w);
      if failed != 0 || !hasKey(key) {
        trace := Ends(hasKey, start, trace, w, Write(0, false, false));
        return Some(if failed != 0 then WriteFailed else NoKeyset), trace;
      }
      src.PagePassed(here, limit, projected, projected, page, key);
      trace := MovesOn(hasKey, start, trace, w, Write(0, false, false), Saving(key));
      exit, trace := Save(hasKey, key, start, trace);
    }

    /** The cursor row is written; a failure ends the run. */
    method Save(hasKey: Key -> bool, key: Key, ghost start: State, ghost trace0: seq<Event>)
      returns (exit: Option<Exit>, ghost trace: seq<Event>)
      requires At(hasKey, start, trace0, map[0 := Saving(key)])
      requires src.Covered(cursor, projected) && src.Covered(Some(key), projected)
      modifies this`cursor
      ensures src.Covered(cursor, projected)
      ensures forall n :: Sized(trace0, n) ==> Sized(trace, n)
      ensures exit == None || exit == Some(CursorFailed)
      ensures healthy ==> exit == None
      ensures exit.None? ==> cursor == Some(key)
      ensures At(hasKey, start, trace, if exit.None? then map[0 := Ready(Some(key))] else map[])
    {
      ghost var was := State(cursor, projected, map[0 := Saving(key)]);
      var ok, applied := SaveCursor(key);
      var e := Event.Save(0, applied, ok);
      RunSnoc(src, hasKey, start, trace0, e);
      OnlyWorker(Saving(key), Ready(Some(key)));
      trace := trace0 + [e];
      exit := if ok then None else Some(CursorFailed);
    }

    /** A step of the only run that does not touch the durable state. */
    ghost method MovesOn(hasKey: Key -> bool, start: State, trace0: seq<Event>, w: Worker, e: Event, next: Worker)
        returns (trace: seq<Event>)
      requires At(hasKey, start, trace0, map[0 := w])
      requires Step(src, hasKey, State(cursor, projected, map[0 := w]), e)
               == State(cursor, projected, map[0 := w][0 := next])
      ensures At(hasKey, start, trace, map[0 := next]) && trace == trace0 + [e]
    {
      RunSnoc(src, hasKey, start, trace0, e);
      OnlyWorker(w, next);
      trace := trace0 + [e];
    }

    /** A step that ends the only run. */
    ghost method Ends(hasKey: Key -> bool, start: State, trace0: seq<Event>, w: Worker, e: Event)
        returns (trace: seq<Event>)
      requires At(hasKey, start, trace0, map[0 := w])
      requires Step(src, hasKey, State(cursor, projected, map[0 := w]), e)
               == State(cursor, projected, map[0 := w] - {0})
      ensures At(hasKey, start, trace, map[]) && trace == trace0 + [e]
    {
      RunSnoc(src, hasKey, start, trace0, e);
      OnlyWorker(w, w);
      trace := trace0 + [e];
    }

    /**
     * One run of the backfill. What it does to the durable state is what its
     * trace of events does. Whatever fails, the cursor stays on projected
     * ground; a run that reports completion has projected everything, and a
     * run without failures or a batch limit ends so, or at a page whose last
     * row lacks its keys.
     */
    method Backfill(hasKey: Key -> bool, batchSize: int := 200, maxBatches: int := 0)
      returns (exit: Exit, written: nat, pages: nat, ghost trace: seq<Event>)
      requires src.Ordered() && src.Covered(cursor, projected)
      modifies this`cursor, this`projected
      ensures src.Covered(cursor, projected) && Grown(old(projected))
      ensures At(hasKey, State(old(cursor), old(projected), map[]), trace, map[])
      ensures Sized(trace, if batchSize < 1 then 1 else batchSize)
      ensures exit == Complete ==> src.TraceKeys() <= projected && written == |src.Left(old(cursor))|
      ensures exit == Complete ==> forall row :: row in src.rows ==> !src.After(cursor, row.key)
      ensures written <= |src.Left(old(cursor))|
      ensures exit == Paused ==> 0 < maxBatches == pages
      ensures healthy && maxBatches <= 0 ==> exit == Complete || exit == NoKeyset
      ensures exit == NoKeyset ==> exists row :: row in src.rows && !hasKey(row.key)
    {
      written, pages, trace := 0, 0, [];
      ghost var start := State(cursor, projected, map[]);
      var loaded := Succeeds();
      if !loaded {
        return CursorFailed, written, pages, trace;
      }
      var limit := if batchSize < 1 then 1 else batchSize;
      var here := cursor;
      trace := Begins(hasKey, start);
      while maxBatches <= 0 || pages < maxBatches
        invariant src.Covered(cursor, projected) && src.Covered(here, projected) && Grown(old(projected))
        invariant here == cursor && written + |src.Left(here)| == |src.Left(old(cursor))|
        invariant 0 < maxBatches ==> pages <= maxBatches
        invariant At(hasKey, start, trace, map[0 := Ready(here)]) && Sized(trace, limit)
        decreases |src.rows| - src.Passed(here, |src.rows|)
      {
        var ended, pageWritten;
        ended, here, pageWritten, trace := OnePage(hasKey, limit, here, start, trace);
        written := written + pageWritten;
        if ended.Some? {
          if ended.value == Complete { src.NothingAfter(cursor, limit); }
          return ended.value, written, pages, trace;
        }
        pages := pages + 1;
      }
      trace := Ends(hasKey, start, trace, Ready(here), Stop(0));
      exit := Paused;
    }

    ghost method Begins(hasKey: Key -> bool, start: State) returns (trace: seq<Event>)
      requires start == State(cursor, projected, map[])
      ensures At(hasKey, start, trace, map[0 := Ready(cursor)]) && forall limit :: Sized(trace, limit)
    {
      RunSnoc(src, hasKey, start, [], Load(0));
      trace := [] + [Load(0)];
    }
  }

  lemma {:induction false} RunSnoc(src: Source, hasKey: Key -> bool, s: State, events: seq<Event>, e: Event)
    ensures Run(src, hasKey, s, events + [e]) == Step(src, hasKey, Run(src, hasKey, s, events), e)
    decreases |events|
  {
    if events == [] {
      assert [] + [e] == [e];
      assert Run(src, hasKey, s, [e]) == Run(src, hasKey, Step(src, hasKey, s, e), []);
    } else {
      assert (events + [e])[1..] == events[1..] + [e];
      RunSnoc(src, hasKey, Step(src, hasKey, s, events[0]), events[1..], e);
    }
  }

  /** Behind the last row of a page its run moves on to saving, or ends. */
  lemma PageDone(src: Source, hasKey: Key -> bool, s: State, w: Worker)
    requires s.workers == map[0 := w] && w.Writing? && w.done == |w.page| && w.page != []
    ensures w.failed || !hasKey(w.page[|w.page| - 1].key) ==>
      Step(src, hasKey, s, Write(0, false, false)) == s.(workers := s.workers - {0})
    ensures !w.failed && hasKey(w.page[|w.page| - 1].key) ==>
      Step(src, hasKey, s, Write(0, false, false)) == s.(workers := s.workers[0 := Saving(w.page[|w.page| - 1].key)])
  {
  }

  lemma OnlyWorker(w: Worker, next: Worker)
    ensures map[0 := w][0 := next] == map[0 := next] && map[0 := w] - {0} == map[]
  {
  }
}
