/** Exactly when a trim leaves the stored numbers without a gap, and a connection that falls into one. */
module Trims {
  import opened Common
  import opened Order
  import opened Timestamps
  import opened Firehose
  import opened Sequencer
  import opened Subscribe
  import opened Splice
  import opened Window

  /** Each row's creation text is of its time. */
  ghost predicate Timed(rows: seq<Row>, times: seq<Instant>) {
    && |times| == |rows|
    && forall i :: 0 <= i < |rows| ==> Valid(times[i]) && rows[i].created == Rfc3339Nano(times[i])
  }

  /** Rows are created in the order of their numbers, by whole seconds. */
  ghost predicate InTime(times: seq<Instant>) {
    forall i, j :: 0 <= i < j < |times| ==> Seconds(times[i]) <= Seconds(times[j])
  }

  /** Of the cutoff's own second a trim takes an earlier row unless its digits are a prefix of the
      cutoff's, and a later one if the cutoff's digits are a prefix of its own. */
  predicate TakenWithin(t: Instant, cutoff: Instant) {
    if t.nano < cutoff.nano then !(Fraction(t) <= Fraction(cutoff))
    else t.nano > cutoff.nano && Fraction(cutoff) <= Fraction(t)
  }

  predicate Taken(t: Instant, cutoff: Instant) {
    Seconds(t) < Seconds(cutoff) || (Seconds(t) == Seconds(cutoff) && TakenWithin(t, cutoff))
  }

  /** Within the cutoff's second no row that stays precedes one that goes. */
  ghost predicate OldestFirst(times: seq<Instant>, cutoff: Instant) {
    forall i, j :: 0 <= i < j < |times| && Seconds(times[i]) == Seconds(cutoff) == Seconds(times[j]) ==>
      (TakenWithin(times[j], cutoff) ==> TakenWithin(times[i], cutoff))
  }

  /** The text comparison of the trim, in terms of the times. */
  lemma TextTakes(t: Instant, cutoff: Instant)
    requires Valid(t) && Valid(cutoff)
    ensures Less(Rfc3339Nano(t), Rfc3339Nano(cutoff)) <==> Taken(t, cutoff)
  {
    if Seconds(t) != Seconds(cutoff) {
      LogTextOrder(t, cutoff);
    } else if t.nano < cutoff.nano {
      SameSecondOrder(t, cutoff);
    } else if t.nano > cutoff.nano {
      SameSecondOrder(cutoff, t);
    } else {
      SecondTextOrder(t, cutoff);
      LessTotal(Rfc3339Nano(t), Rfc3339Nano(t));
    }
  }

  lemma {:induction false} TrimIsSplit(rows: seq<Row>, k: nat, cutoff: string)
    requires k <= |rows|
    requires forall i :: 0 <= i < |rows| ==> (Less(rows[i].created, cutoff) <==> i < k)
    ensures Trimmed(rows, cutoff) == rows[k..]
  {
    if rows == [] {
    } else if k == |rows| {
      TrimIsSplit(rows[..|rows| - 1], k - 1, cutoff);
    } else {
      TrimIsSplit(rows[..|rows| - 1], k, cutoff);
      assert rows[k..] == rows[..|rows| - 1][k..] + [rows[|rows| - 1]];
    }
  }

  /** No row that stays precedes one that goes. */
  ghost predicate GoFirst(rows: seq<Row>, cutoff: string) {
    forall i, j :: 0 <= i < j < |rows| && Less(rows[j].created, cutoff) ==> Less(rows[i].created, cutoff)
  }

  lemma {:induction false} GoneAreFirst(rows: seq<Row>, cutoff: string) returns (k: nat)
    requires GoFirst(rows, cutoff)
    ensures k <= |rows| && Trimmed(rows, cutoff) == rows[k..]
  {
    k := 0;
    while k < |rows| && Less(rows[k].created, cutoff)
      invariant k <= |rows| && forall i :: 0 <= i < k ==> Less(rows[i].created, cutoff)
    {
      k := k + 1;
    }
    TrimIsSplit(rows, k, cutoff);
  }

  ghost predicate Suffix(kept: seq<Row>, rows: seq<Row>) {
    exists k :: 0 <= k <= |rows| && kept == rows[k..]
  }

  lemma InSuffix(rows: seq<Row>, k: nat, i: nat)
    requires RowsAscend(rows) && k <= |rows| && i < |rows|
    ensures rows[i] in rows[k..] <==> k <= i
  {
    if k <= i {
      assert rows[k..][i - k] == rows[i];
    }
  }

  lemma SuffixGoesFirst(rows: seq<Row>, cutoff: string)
    requires RowsAscend(rows) && Suffix(Trimmed(rows, cutoff), rows)
    ensures GoFirst(rows, cutoff)
  {
    TrimmedSelects(rows, cutoff);
    var k :| 0 <= k <= |rows| && Trimmed(rows, cutoff) == rows[k..];
    forall i | 0 <= i < |rows| ensures Less(rows[i].created, cutoff) <==> i < k {
      assert rows[i] in Trimmed(rows, cutoff) <==> !Less(rows[i].created, cutoff);
      InSuffix(rows, k, i);
    }
  }

  lemma GoFirstIff(rows: seq<Row>, times: seq<Instant>, cutoff: Instant)
    requires Timed(rows, times) && InTime(times) && Valid(cutoff)
    ensures GoFirst(rows, Rfc3339Nano(cutoff)) <==> OldestFirst(times, cutoff)
  {
    var text := Rfc3339Nano(cutoff);
    forall i | 0 <= i < |rows| ensures Less(rows[i].created, text) <==> Taken(times[i], cutoff) {
      TextTakes(times[i], cutoff);
    }
    hide TakenWithin, Seconds, Rfc3339Nano;
    if OldestFirst(times, cutoff) {
      forall i, j | 0 <= i < j < |rows| && Less(rows[j].created, text) ensures Less(rows[i].created, text) {
        assert Taken(times[j], cutoff) && Seconds(times[i]) <= Seconds(times[j]);
      }
    }
    if GoFirst(rows, text) {
      forall i, j | 0 <= i < j < |times| && Seconds(times[i]) == Seconds(cutoff) == Seconds(times[j])
          && TakenWithin(times[j], cutoff)
        ensures TakenWithin(times[i], cutoff)
      {
        assert Less(rows[j].created, text);
      }
    }
  }

  /** Of rows in time order a trim removes only the oldest if and only if, within the cutoff's own
      second, no row that stays precedes one that goes. */
  lemma TrimRemovesOldestIff(rows: seq<Row>, times: seq<Instant>, cutoff: Instant)
    requires RowsAscend(rows) && Timed(rows, times) && InTime(times) && Valid(cutoff)
    ensures Suffix(Trimmed(rows, Rfc3339Nano(cutoff)), rows) <==> OldestFirst(times, cutoff)
  {
    GoFirstIff(rows, times, cutoff);
    if OldestFirst(times, cutoff) {
      var k := GoneAreFirst(rows, Rfc3339Nano(cutoff));
    }
    if Suffix(Trimmed(rows, Rfc3339Nano(cutoff)), rows) {
      SuffixGoesFirst(rows, Rfc3339Nano(cutoff));
    }
  }

  /** Consecutive kept numbers that include two rows include every row between. */
  lemma BetweenKept(kept: seq<Row>, rows: seq<Row>, i: nat, j: nat)
    requires Gapless(rows) && Gapless(kept) && forall r :: r in kept ==> r in rows
    requires i <= j < |rows| && rows[i] in kept && rows[|rows| - 1] in kept
    ensures rows[j] in kept
  {
    var a :| 0 <= a < |kept| && kept[a] == rows[i];
    var b :| 0 <= b < |kept| && kept[b] == rows[|rows| - 1];
    var x := rows[j].number - kept[0].number;
    assert kept[x] in rows;
    var y :| 0 <= y < |rows| && rows[y] == kept[x];
    assert y == j;
  }

  lemma GaplessGoesFirst(rows: seq<Row>, cutoff: string)
    requires Gapless(rows) && rows != [] && !Less(rows[|rows| - 1].created, cutoff)
    requires Gapless(Trimmed(rows, cutoff))
    ensures GoFirst(rows, cutoff)
  {
    var kept := Trimmed(rows, cutoff);
    TrimmedSelects(rows, cutoff);
    forall i, j | 0 <= i < j < |rows| && !Less(rows[i].created, cutoff) ensures !Less(rows[j].created, cutoff) {
      BetweenKept(kept, rows, i, j);
    }
  }

  lemma GoFirstLeavesNoGap(rows: seq<Row>, cutoff: string)
    requires Gapless(rows) && GoFirst(rows, cutoff)
    ensures Gapless(Trimmed(rows, cutoff))
  {
    var k := GoneAreFirst(rows, cutoff);
  }

  /** A trim that keeps the newest row leaves consecutive numbers consecutive if and only if,
      within the cutoff's own second, no row that stays precedes one that goes. */
  lemma TrimLeavesNoGapIff(rows: seq<Row>, times: seq<Instant>, cutoff: Instant)
    requires Gapless(rows) && Timed(rows, times) && InTime(times) && Valid(cutoff)
    requires rows != [] && !Taken(times[|rows| - 1], cutoff)
    ensures Gapless(Trimmed(rows, Rfc3339Nano(cutoff))) <==> OldestFirst(times, cutoff)
  {
    TextTakes(times[|rows| - 1], cutoff);
    GoFirstIff(rows, times, cutoff);
    hide GoFirst, OldestFirst, Gapless, Rfc3339Nano;
    if GoFirst(rows, Rfc3339Nano(cutoff)) {
      GoFirstLeavesNoGap(rows, Rfc3339Nano(cutoff));
    } else if Gapless(Trimmed(rows, Rfc3339Nano(cutoff))) {
      GaplessGoesFirst(rows, Rfc3339Nano(cutoff));
    }
  }

  /** In particular when no row is of the cutoff's own second. */
  lemma TrimRemovesOldest(rows: seq<Row>, times: seq<Instant>, cutoff: Instant)
    requires Timed(rows, times) && InTime(times) && Valid(cutoff)
    requires forall i :: 0 <= i < |times| ==> Seconds(times[i]) != Seconds(cutoff)
    ensures Suffix(Trimmed(rows, Rfc3339Nano(cutoff)), rows)
    ensures Gapless(rows) ==> Gapless(Trimmed(rows, Rfc3339Nano(cutoff)))
  {
    GoFirstIff(rows, times, cutoff);
    var k := GoneAreFirst(rows, Rfc3339Nano(cutoff));
  }

  // ----- a gap that is reached -----

  /** Half a second past midnight on the given day of January. */
  function Half(y: nat, day: nat): Instant {
    Instant(y, 1, day, 0, 0, 0, 500_000_000)
  }

  function Bit(y: nat, day: nat): Instant {
    Instant(y, 1, day, 0, 0, 0, 550_000_000)
  }

  /** Three appends, each with the cutoff 72 hours before: the third's falls on the first two. */
  function Attempts(y: nat, did: string, e: Event): seq<Attempt> {
    [Attempt(did, e, Half(y, 4), Half(y, 1)),
     Attempt(did, e, Bit(y, 4), Bit(y, 1)),
     Attempt(did, e, Half(y, 7), Half(y, 4))]
  }

  lemma AttemptWindows(y: nat, did: string, e: Event)
    requires y <= 9999
    ensures WindowsOk(Attempts(y, did, e))
  {
  }

  /** The row that an append of a commit event stores. */
  function RowOf(n: nat, did: string, e: Event, now: Instant): Row
    requires e.commit.Some?
  {
    Row(n, did, "#commit", Serialize(e.(commit := Some(e.commit.value.(number := n)))).value, Rfc3339Nano(now))
  }

  /** What the three trims take and leave. */
  lemma TrimsOfThree(y: nat)
    requires y <= 9999
    ensures var first, second, third := Rfc3339Nano(Half(y, 4)), Rfc3339Nano(Bit(y, 4)), Rfc3339Nano(Half(y, 7));
      && !Less(first, Rfc3339Nano(Half(y, 1)))
      && !Less(first, Rfc3339Nano(Bit(y, 1))) && !Less(second, Rfc3339Nano(Bit(y, 1)))
      && !Less(first, first) && Less(second, first) && !Less(third, first)
  {
    hide Rfc3339Nano;
    LogTextOrder(Half(y, 4), Half(y, 1));
    LogTextOrder(Half(y, 4), Bit(y, 1));
    LogTextOrder(Bit(y, 4), Bit(y, 1));
    LogTextOrder(Half(y, 7), Half(y, 4));
    HalfSecondExample(Half(y, 4));
    LessTotal(Rfc3339Nano(Half(y, 4)), Rfc3339Nano(Half(y, 4)));
  }

  /** The log after each of the three appends. */
  lemma LogOfThree(y: nat, did: string, e: Event)
    requires y <= 9999 && e.commit.Some?
    ensures var r1, r2, r3 := RowOf(1, did, e, Half(y, 4)), RowOf(2, did, e, Bit(y, 4)), RowOf(3, did, e, Half(y, 7));
      && Stored(Log([], 0), r1, Rfc3339Nano(Half(y, 1))) == Log([r1], 1)
      && Stored(Log([r1], 1), r2, Rfc3339Nano(Bit(y, 1))) == Log([r1, r2], 2)
      && Stored(Log([r1, r2], 2), r3, Rfc3339Nano(Half(y, 4))) == Log([r1, r3], 3)
  {
    var r1, r2, r3 := RowOf(1, did, e, Half(y, 4)), RowOf(2, did, e, Bit(y, 4)), RowOf(3, did, e, Half(y, 7));
    TrimsOfThree(y);
    hide Rfc3339Nano, Half, Bit, Less, Serialize, Trimmed, Stored;
    StoredThree(r1, r2, r3, Rfc3339Nano(Half(y, 1)), Rfc3339Nano(Bit(y, 1)), Rfc3339Nano(Half(y, 4)));
  }

  /** Three stores of which only the last trims, and takes the middle row. */
  lemma StoredThree(r1: Row, r2: Row, r3: Row, c1: string, c2: string, c3: string)
    requires r1.number == 1 && r2.number == 2 && r3.number == 3
    requires !Less(r1.created, c1) && !Less(r1.created, c2) && !Less(r2.created, c2)
    requires !Less(r1.created, c3) && Less(r2.created, c3) && !Less(r3.created, c3)
    ensures Stored(Log([], 0), r1, c1) == Log([r1], 1)
    ensures Stored(Log([r1], 1), r2, c2) == Log([r1, r2], 2)
    ensures Stored(Log([r1, r2], 2), r3, c3) == Log([r1, r3], 3)
  {
    hide Less, Trimmed;
    TrimOne(r1, c1);
    TrimTwo(r1, r2, c2);
    TrimThree(r1, r2, r3, c3);
    assert [] + [r1] == [r1] && [r1] + [r2] == [r1, r2] && [r1, r2] + [r3] == [r1, r2, r3];
  }

  lemma TrimOne(a: Row, cutoff: string)
    ensures Trimmed([a], cutoff) == if Less(a.created, cutoff) then [] else [a]
  {
    assert [a][..0] == [];
  }

  lemma TrimTwo(a: Row, b: Row, cutoff: string)
    ensures Trimmed([a, b], cutoff) == Trimmed([a], cutoff) + Trimmed([b], cutoff)
    ensures Trimmed([a], cutoff) == if Less(a.created, cutoff) then [] else [a]
    ensures Trimmed([b], cutoff) == if Less(b.created, cutoff) then [] else [b]
  {
    TrimOne(a, cutoff);
    TrimOne(b, cutoff);
    assert [a, b][..1] == [a];
  }

  lemma TrimThree(a: Row, b: Row, c: Row, cutoff: string)
    ensures Trimmed([a, b, c], cutoff) == Trimmed([a, b], cutoff) + Trimmed([c], cutoff)
    ensures Trimmed([a, b], cutoff)
        == (if Less(a.created, cutoff) then [] else [a]) + if Less(b.created, cutoff) then [] else [b]
    ensures Trimmed([c], cutoff) == if Less(c.created, cutoff) then [] else [c]
  {
    TrimTwo(a, b, cutoff);
    TrimOne(c, cutoff);
    assert [a, b, c][..2] == [a, b];
  }

  /** It is a log the sequencer reaches: of three appended events it stores the first and the third. */
  lemma RunLeavesGap(y: nat, did: string, e: Event)
    requires y <= 9999 && e.commit.Some?
    ensures WindowsOk(Attempts(y, did, e))
    ensures Run(Attempts(y, did, e)) == Log([RowOf(1, did, e, Half(y, 4)), RowOf(3, did, e, Half(y, 7))], 3)
  {
    AttemptWindows(y, did, e);
    LogOfThree(y, did, e);
    hide Rfc3339Nano, Half, Bit, Stored;
    var a := Attempts(y, did, e);
    assert a[..2][..1] == a[..1] && a[..1][..0] == [] && a[..3] == a;
    assert Run(a[..1]) == Log([RowOf(1, did, e, Half(y, 4))], 1);
    assert Run(a[..2]) == Log([RowOf(1, did, e, Half(y, 4)), RowOf(2, did, e, Bit(y, 4))], 2);
  }

  // ----- a connection that falls into it -----

  /** An append whose event is announced at once, before the connection registers. */
  lemma AppendBefore(acts: seq<Act>, row: Row, cutoff: string) returns (acts': seq<Act>)
    requires Possible(Some(1), acts) && AllOrderly(Some(1), acts)
    requires var w := After(Some(1), acts);
      w.conn == Opened(Some(1)) && w.pending == [] && row.number == w.log.last + 1 && !Less(row.created, cutoff)
    ensures Possible(Some(1), acts') && AllOrderly(Some(1), acts')
    ensures var w := After(Some(1), acts);
      After(Some(1), acts') == World(Stored(w.log, row, cutoff), w.history + [row.frame], [], w.conn, w.memo)
  {
    OneMoreAct(Some(1), acts, Commit(row, cutoff));
    acts' := acts + [Commit(row, cutoff)];
    OneMoreAct(Some(1), acts', Broadcast(0));
    acts' := acts' + [Broadcast(0)];
  }

  /** The three appends as a run of the firehose. */
  lemma ThreeAppended(y: nat, did: string, e: Event) returns (acts: seq<Act>)
    requires y <= 9999 && e.commit.Some?
    ensures Possible(Some(1), acts) && AllOrderly(Some(1), acts)
    ensures var w := After(Some(1), acts);
      && w.log == Log([RowOf(1, did, e, Half(y, 4)), RowOf(3, did, e, Half(y, 7))], 3)
      && |w.history| == 3 && w.pending == [] && w.conn == Opened(Some(1)) && w.memo == Memo(0, [], 0, true)
  {
    LogOfThree(y, did, e);
    TrimsOfThree(y);
    hide Rfc3339Nano, Half, Bit, Stored, Less;
    acts := [];
    acts := AppendBefore(acts, RowOf(1, did, e, Half(y, 4)), Rfc3339Nano(Half(y, 1)));
    acts := AppendBefore(acts, RowOf(2, did, e, Bit(y, 4)), Rfc3339Nano(Bit(y, 1)));
    acts := AppendBefore(acts, RowOf(3, did, e, Half(y, 7)), Rfc3339Nano(Half(y, 4)));
  }

  /** A client at event 1, the oldest stored, passes the window check. */
  lemma PassesWindow(y: nat, did: string, e: Event) returns (acts: seq<Act>)
    requires y <= 9999 && e.commit.Some?
    ensures Possible(Some(1), acts) && AllOrderly(Some(1), acts)
    ensures var w := After(Some(1), acts);
      && w.log == Log([RowOf(1, did, e, Half(y, 4)), RowOf(3, did, e, Half(y, 7))], 3) && |w.history| == 3
      && w.conn == Opened(Some(1)).(phase := Checked, latest := 3) && w.pending == []
  {
    acts := ThreeAppended(y, did, e);
    hide Rfc3339Nano, Half, RowOf;
    OneMoreAct(Some(1), acts, Register);
    acts := acts + [Register];
    OneMoreAct(Some(1), acts, ReadLatest);
    acts := acts + [ReadLatest];
    OneMoreAct(Some(1), acts, ReadEarliest);
    acts := acts + [ReadEarliest];
  }

  /** And never gets event 2: with every announcement in order and nothing dropped or trimmed
      after the check, it goes from event 1 straight to event 3. */
  lemma TrimLeavesGap(y: nat, did: string, e: Event) returns (acts: seq<Act>)
    requires y <= 9999 && e.commit.Some?
    ensures Possible(Some(1), acts) && AllOrderly(Some(1), acts)
    ensures var w := After(Some(1), acts);
      && w.log == Run(Attempts(y, did, e)) && |w.history| == 3
      && w.conn.phase == Live && w.conn.notices == [] && !w.memo.whole
      && w.conn.sent == [Announce(RowOf(3, did, e, Half(y, 7)))] && w.conn.lastSent == 3
  {
    acts := PassesWindow(y, did, e);
    RunLeavesGap(y, did, e);
    var r1, r3 := RowOf(1, did, e, Half(y, 4)), RowOf(3, did, e, Half(y, 7));
    hide Rfc3339Nano, Half, Attempts;
    GapBacklog(r1, r3);
    OneMoreAct(Some(1), acts, Query);
    acts := acts + [Query];
    OneMoreAct(Some(1), acts, SendOne);
    acts := acts + [SendOne];
    OneMoreAct(Some(1), acts, SendOne);
    acts := acts + [SendOne];
  }

  lemma GapBacklog(r1: Row, r3: Row)
    requires r1.number == 1 && r3.number == 3
    ensures Backlog([r1, r3], 1) == [Announce(r3)] && !Whole(Log([r1, r3], 3), 1)
  {
    assert [r1, r3][..1] == [r1] && [r1][..0] == [] && Backlog([r1], 1) == [];
    assert !Holds([r1, r3], 2);
  }
}
