/** The retention window: which cursors are refused or told off, and what one inside it gets. */
module Window {
  import opened Common
  import opened Firehose
  import opened Sequencer
  import opened Subscribe
  import opened Splice

  /** Stored numbers are consecutive. */
  ghost predicate Gapless(rows: seq<Row>) {
    forall i :: 0 <= i < |rows| ==> rows[i].number == rows[0].number + i
  }

  /** Trims leave no gap, and none removes a row between the window check and the query. */
  ghost predicate Steady(w: World, a: Act) {
    a.Commit? ==>
      var kept := Stored(w.log, a.row, a.cutoff).rows;
      Gapless(kept) && (w.conn.phase == Checked ==> kept == w.log.rows + [a.row])
  }

  ghost predicate AllSteady(cursor: Option<int>, acts: seq<Act>)
    requires Possible(cursor, acts)
  {
    acts != [] ==>
      AllSteady(cursor, acts[..|acts| - 1]) && Steady(After(cursor, acts[..|acts| - 1]), acts[|acts| - 1])
  }

  /** After the window check nothing after the cursor is missing. */
  ghost predicate Covered(w: World) {
    && Gapless(w.log.rows) && w.memo.whole
    && (w.conn.phase == Checked && w.conn.cursor.Some? ==> Whole(w.log, w.conn.cursor.value))
  }

  /** Over consecutive rows the window check passes exactly if no event after the cursor is
      missing, apart from negative cursors, which it refuses once anything is stored. */
  lemma WindowCoversIff(log: Log, cursor: int)
    requires LogOk(log) && Gapless(log.rows)
    ensures EarliestSeq(log) > 0 && cursor < EarliestSeq(log) - 1 <==>
      !Whole(log, cursor) || (cursor < 0 && log.last > 0)
  {
    if log.rows != [] && cursor < EarliestSeq(log) - 1 {
      if cursor >= 0 {
        assert !Holds(log.rows, cursor + 1);
      }
    } else {
      forall n: nat | 0 < n && cursor < n <= log.last ensures Holds(log.rows, n) {
        assert log.rows[n - log.rows[0].number].number == n;
      }
    }
  }

  lemma AppendCovers(log: Log, row: Row, cursor: int)
    requires Whole(log, cursor) && row.number == log.last + 1
    ensures Whole(Log(log.rows + [row], row.number), cursor)
  {
    var all := log.rows + [row];
    forall n: nat | 0 < n && cursor < n <= row.number ensures Holds(all, n) {
      if n == row.number {
        assert all[|log.rows|].number == n;
      } else {
        assert Holds(log.rows, n);
        var i :| 0 <= i < |log.rows| && log.rows[i].number == n;
        assert all[i].number == n;
      }
    }
  }

  lemma NextStaysCovered(w: World, a: Act)
    requires Covered(w) && LogOk(w.log) && Enabled(w, a) && Steady(w, a)
    ensures Covered(Next(w, a))
  {
    var c := w.conn;
    match a
    case Commit(row, cutoff) =>
      if c.phase == Checked && c.cursor.Some? {
        AppendCovers(w.log, row, c.cursor.value);
      }
    case ReadEarliest =>
      if Next(w, a).conn.phase == Checked {
        WindowCoversIff(w.log, c.cursor.value);
      }
    case _ =>
  }

  lemma {:induction false} RunStaysCovered(cursor: Option<int>, acts: seq<Act>)
    requires Possible(cursor, acts) && AllOrderly(cursor, acts) && AllSteady(cursor, acts)
    ensures Covered(After(cursor, acts))
  {
    if acts != [] {
      RunStaysCovered(cursor, acts[..|acts| - 1]);
      RunStaysTidy(cursor, acts[..|acts| - 1]);
      NextStaysCovered(After(cursor, acts[..|acts| - 1]), acts[|acts| - 1]);
    }
  }

  // ----- what the two reads decide -----

  lemma {:induction false} RunStaysLogOk(cursor: Option<int>, acts: seq<Act>)
    requires Possible(cursor, acts)
    ensures LogOk(After(cursor, acts).log) && After(cursor, acts).log.last == |After(cursor, acts).history|
  {
    if acts != [] {
      RunStaysLogOk(cursor, acts[..|acts| - 1]);
      match acts[|acts| - 1]
      case Commit(row, cutoff) => NewestStays(After(cursor, acts[..|acts| - 1]).log, row, cutoff);
      case _ =>
    }
  }

  /** A cursor is refused as a future one exactly if it is past every event committed. */
  lemma RefusedIff(cursor: int, acts: seq<Act>)
    requires Possible(Some(cursor), acts + [ReadLatest]) && Possible(Some(cursor), acts)
    ensures var w, c := After(Some(cursor), acts), After(Some(cursor), acts + [ReadLatest]).conn;
      && (c.phase == Closed <==> cursor > |w.history|)
      && (c.phase == Closed ==> c.notices == [Error("FutureCursor")])
      && (c.phase != Closed ==> c.phase == Measured && c.notices == [])
  {
    assert (acts + [ReadLatest])[..|acts|] == acts;
    RunStaysLogOk(Some(cursor), acts);
    RunKeepsCursor(Some(cursor), acts);
    RunStaysUnfetched(Some(cursor), acts);
  }

  /** A cursor is told off as outdated exactly if some event after it is no longer stored, when
      the stored numbers are consecutive; negative ones also once anything is stored. Then the
      connection goes live at the latest event reported, and otherwise it goes on to backfill. */
  lemma ToldOffIff(cursor: int, acts: seq<Act>)
    requires Possible(Some(cursor), acts + [ReadEarliest]) && Possible(Some(cursor), acts)
    requires Gapless(After(Some(cursor), acts).log.rows)
    ensures var w, c := After(Some(cursor), acts), After(Some(cursor), acts + [ReadEarliest]).conn;
      && (c.notices != [] <==> !Whole(w.log, cursor) || (cursor < 0 && |w.history| > 0))
      && (c.notices != [] ==> c.notices == [Info("OutdatedCursor")] && c.phase == Live && c.lastSent == w.conn.latest)
      && (c.notices == [] ==> c.phase == Checked)
  {
    assert (acts + [ReadEarliest])[..|acts|] == acts;
    RunStaysLogOk(Some(cursor), acts);
    RunKeepsCursor(Some(cursor), acts);
    RunStaysUnfetched(Some(cursor), acts);
    WindowCoversIff(After(Some(cursor), acts).log, cursor);
    hide Whole;
  }

  /** Once the window has been read no other notice is sent. */
  lemma {:induction false} NoticesStay(cursor: Option<int>, acts: seq<Act>, k: nat)
    requires Possible(cursor, acts) && k <= |acts| && Possible(cursor, acts[..k])
    requires After(cursor, acts[..k]).conn.phase in {Checked, Backfilling, Live, Closed}
    ensures After(cursor, acts).conn.notices == After(cursor, acts[..k]).conn.notices
    ensures After(cursor, acts).conn.phase in {Checked, Backfilling, Live, Closed}
  {
    if k == |acts| {
      assert acts[..k] == acts;
    } else {
      assert acts[..|acts| - 1][..k] == acts[..k];
      NoticesStay(cursor, acts[..|acts| - 1], k);
    }
  }

  lemma {:induction false} PrefixPossible(cursor: Option<int>, acts: seq<Act>, k: nat)
    requires Possible(cursor, acts) && k <= |acts|
    ensures Possible(cursor, acts[..k])
    ensures AllOrderly(cursor, acts) ==> AllOrderly(cursor, acts[..k])
    ensures AllOrderly(cursor, acts) && AllSteady(cursor, acts) ==> AllSteady(cursor, acts[..k])
  {
    if k < |acts| {
      PrefixPossible(cursor, acts[..|acts| - 1], k);
      assert acts[..|acts| - 1][..k] == acts[..k];
    } else {
      assert acts[..k] == acts;
    }
  }

  /** The connection read the window at act k, when no event after the cursor was missing. */
  ghost predicate CursorInWindow(cursor: int, acts: seq<Act>, k: nat)
    requires Possible(Some(cursor), acts)
  {
    k < |acts| && acts[k] == ReadEarliest && Possible(Some(cursor), acts[..k])
      && Whole(After(Some(cursor), acts[..k]).log, cursor)
  }

  /** A cursor from zero on after which no event is missing when the window is read, and not past
      the events announced at registration, gets exactly the events after it, at every moment it
      is live, with no gap and no repeat. */
  lemma InWindowSplice(cursor: nat, acts: seq<Act>, k: nat)
    requires Possible(Some(cursor), acts) && AllOrderly(Some(cursor), acts) && AllSteady(Some(cursor), acts)
    requires CursorInWindow(cursor, acts, k)
    requires var w := After(Some(cursor), acts); w.conn.phase == Live && cursor <= w.memo.start
    ensures var w := After(Some(cursor), acts);
      w.conn.sent + Fresh(w.conn.queue + w.pending, w.conn.lastSent) == EventsAfter(w.history, cursor)
  {
    WindowPassed(cursor, acts, k);
    ExactSplice(cursor, acts);
    RunStaysCovered(Some(cursor), acts);
    RunStaysSincere(Some(cursor), acts);
    var w := After(Some(cursor), acts);
    assert w.conn.sent + [] == w.conn.sent;
  }

  lemma WindowPassed(cursor: nat, acts: seq<Act>, k: nat)
    requires Possible(Some(cursor), acts) && AllOrderly(Some(cursor), acts) && AllSteady(Some(cursor), acts)
    requires CursorInWindow(cursor, acts, k)
    ensures After(Some(cursor), acts).conn.notices == []
  {
    var before := acts[..k];
    PrefixPossible(Some(cursor), acts, k);
    PrefixPossible(Some(cursor), acts, k + 1);
    assert acts[..k + 1] == before + [ReadEarliest];
    RunStaysCovered(Some(cursor), before);
    hide Whole, Gapless, AllOrderly, AllSteady;
    ToldOffIff(cursor, before);
    NoticesStay(Some(cursor), acts, k + 1);
  }
}
