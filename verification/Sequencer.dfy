/** The durable, numbered, trimmed event log and its in-process broadcast. */
module Sequencer {
  import opened Common
  import opened Order
  import opened Timestamps
  import opened Firehose

  const CAPACITY: nat := 256
  const WINDOW_SECONDS: nat := 72 * 3600

  datatype Row = Row(number: nat, did: string, tag: string, frame: Frame, created: string)

  /** The events table, and the highest number AUTOINCREMENT has handed out. */
  datatype Log = Log(rows: seq<Row>, last: nat)

  /** Rows whose creation text is not before the cutoff text. */
  function Trimmed(rows: seq<Row>, cutoff: string): seq<Row> {
    if rows == [] then [] else
      var r := rows[|rows| - 1];
      Trimmed(rows[..|rows| - 1], cutoff) + if Less(r.created, cutoff) then [] else [r]
  }

  /** The row that the next append stores: numbered, stamped, framed. A stamped event always
      has a frame. */
  function NewRow(log: Log, did: string, e: Event, now: string): Result<Row, FrameError> {
    match Stamp(e, log.last + 1)
    case Err(x) => Err(x)
    case Ok(stamped) => Ok(Row(log.last + 1, did, stamped.1, Serialize(stamped.0).value, now))
  }

  /** The log with a new row stored and old rows trimmed. */
  function Stored(log: Log, row: Row, cutoff: string): Log {
    Log(Trimmed(log.rows + [row], cutoff), row.number)
  }

  predicate Holds(rows: seq<Row>, n: nat) {
    exists i :: 0 <= i < |rows| && rows[i].number == n
  }

  function LatestSeq(log: Log): nat {
    if log.rows == [] then 0 else log.rows[|log.rows| - 1].number
  }

  function EarliestSeq(log: Log): nat {
    if log.rows == [] then 0 else log.rows[0].number
  }

  datatype Msg = Msg(number: nat, frame: Frame)

  function Announce(row: Row): Msg {
    Msg(row.number, row.frame)
  }

  function Push(queue: seq<Msg>, m: Msg): seq<Msg> {
    if |queue| < CAPACITY then queue + [m] else queue
  }

  /** Stored events after `since`, in order. */
  function Backlog(rows: seq<Row>, since: int): seq<Msg> {
    if rows == [] then [] else
      var r := rows[|rows| - 1];
      Backlog(rows[..|rows| - 1], since) + if r.number > since then [Announce(r)] else []
  }

  class Channel {
    var queue: seq<Msg>

    constructor ()
      ensures queue == []
    {
      queue := [];
    }

    /** A full channel drops the message rather than block the writer. */
    method Send(m: Msg)
      modifies this
      ensures queue == Push(old(queue), m)
    {
      if |queue| < CAPACITY {
        queue := queue + [m];
      }
    }
  }

  class Sequencer {
    var rows: seq<Row>
    var last: nat
    var subs: set<Channel>

    function View(): Log
      reads this
    {
      Log(rows, last)
    }

    constructor ()
      ensures View() == Log([], 0) && subs == {}
    {
      rows, last, subs := [], 0, {};
    }

    /** A failed append rolls back, the number included. */
    method Append(did: string, evt: PendingEvent, now: Instant, cutoff: Instant) returns (res: Result<nat, FrameError>)
      modifies this`rows, this`last, evt, subs
      ensures subs == old(subs)
      ensures match NewRow(old(View()), did, old(evt.event), Rfc3339Nano(now))
        case Err(x) =>
          res == Err(x) && View() == old(View()) && forall ch :: ch in subs ==> ch.queue == old(ch.queue)
        case Ok(row) =>
          res == Ok(row.number) && View() == Stored(old(View()), row, Rfc3339Nano(cutoff)) &&
          forall ch :: ch in subs ==> ch.queue == Push(old(ch.queue), Announce(row))
    {
      var n := last + 1;
      var tag := evt.SeqOf(n);
      if tag.Err? {
        return Err(tag.error);
      }
      var row := Row(n, did, tag.value, Serialize(evt.event).value, Rfc3339Nano(now));
      var kept := TrimRows(rows + [row], Rfc3339Nano(cutoff));
      rows, last := kept, n;
      Broadcast(Announce(row));
      return Ok(n);
    }

    method TrimRows(all: seq<Row>, cutoff: string) returns (kept: seq<Row>)
      ensures kept == Trimmed(all, cutoff)
    {
      kept := [];
      for i := 0 to |all|
        invariant kept == Trimmed(all[..i], cutoff)
      {
        if !Less(all[i].created, cutoff) {
          kept := kept + [all[i]];
        }
        assert all[..i + 1][..i] == all[..i];
      }
      assert all[..|all|] == all;
    }

    method Backfill(since: int) returns (out: seq<Msg>)
      ensures out == Backlog(rows, since)
    {
      out := [];
      for i := 0 to |rows|
        invariant out == Backlog(rows[..i], since)
      {
        if rows[i].number > since {
          out := out + [Announce(rows[i])];
        }
        assert rows[..i + 1][..i] == rows[..i];
      }
      assert rows[..|rows|] == rows;
    }

    method Subscribe() returns (ch: Channel)
      modifies this`subs
      ensures fresh(ch) && ch.queue == [] && subs == old(subs) + {ch}
    {
      ch := new Channel();
      subs := subs + {ch};
    }

    method Unsubscribe(ch: Channel)
      modifies this`subs
      ensures subs == old(subs) - {ch}
    {
      subs := subs - {ch};
    }

    method Broadcast(m: Msg)
      modifies subs
      ensures forall ch :: ch in subs ==> ch.queue == Push(old(ch.queue), m)
    {
      var left := subs;
      while left != {}
        invariant left <= subs
        invariant forall ch :: ch in left ==> ch.queue == old(ch.queue)
        invariant forall ch :: ch in subs - left ==> ch.queue == Push(old(ch.queue), m)
        decreases left
      {
        var ch :| ch in left;
        ch.Send(m);
        left := left - {ch};
      }
    }
  }

  // ----- what every run of appends keeps -----

  ghost predicate RowsAscend(rows: seq<Row>) {
    forall i, j :: 0 <= i < j < |rows| ==> rows[i].number < rows[j].number
  }

  /** Numbers ascend up to the last one issued, and the newest event is still stored. */
  ghost predicate LogOk(log: Log) {
    && RowsAscend(log.rows)
    && (log.last == 0 <==> log.rows == [])
    && (log.rows != [] ==> log.rows[|log.rows| - 1].number == log.last)
    && forall i :: 0 <= i < |log.rows| ==> 0 < log.rows[i].number
  }

  /** A row's frame carries the row's own number under the row's own type. */
  ghost predicate RowsAgree(rows: seq<Row>) {
    forall i :: 0 <= i < |rows| ==> Carries(rows[i].frame, rows[i].tag, rows[i].number)
  }

  lemma {:induction false} TrimmedSelects(rows: seq<Row>, cutoff: string)
    ensures forall r :: r in Trimmed(rows, cutoff) <==> r in rows && !Less(r.created, cutoff)
    ensures RowsAscend(rows) ==> RowsAscend(Trimmed(rows, cutoff))
  {
    if rows != [] {
      var prior := rows[..|rows| - 1];
      TrimmedSelects(prior, cutoff);
      assert rows == prior + [rows[|rows| - 1]];
      if RowsAscend(rows) {
        forall r | r in Trimmed(prior, cutoff) ensures r.number < rows[|rows| - 1].number {
          assert r in prior;
        }
      }
    }
  }

  /** `cutoff` is `now` moved back by the retention window. */
  ghost predicate WindowBefore(cutoff: Instant, now: Instant) {
    Valid(cutoff) && Valid(now) && Seconds(cutoff) + WINDOW_SECONDS == Seconds(now)
  }

  lemma TrimmedSnoc(rows: seq<Row>, row: Row, cutoff: string)
    ensures Trimmed(rows + [row], cutoff) == Trimmed(rows, cutoff) + if Less(row.created, cutoff) then [] else [row]
  {
    assert (rows + [row])[..|rows|] == rows;
  }

  lemma RowsGrow(log: Log, row: Row)
    requires LogOk(log) && row.number == log.last + 1
    ensures RowsAscend(log.rows + [row]) && forall r :: r in log.rows + [row] ==> 0 < r.number
  {
    var all := log.rows + [row];
    forall i, j | 0 <= i < j < |all| ensures all[i].number < all[j].number {
      if j == |log.rows| {
        assert i == |log.rows| - 1 || log.rows[i].number < log.rows[|log.rows| - 1].number;
      }
    }
  }

  /** An append that does not trim its own row leaves the log in order with its newest row last. */
  lemma NewestStays(log: Log, row: Row, cutoff: string)
    requires LogOk(log) && row.number == log.last + 1 && !Less(row.created, cutoff)
    ensures LogOk(Stored(log, row, cutoff))
  {
    var all := log.rows + [row];
    var kept := Trimmed(all, cutoff);
    hide Trimmed, Less;
    TrimmedSelects(all, cutoff);
    TrimmedSnoc(log.rows, row, cutoff);
    RowsGrow(log, row);
    forall i | 0 <= i < |kept| ensures 0 < kept[i].number {
      assert kept[i] in all;
    }
  }

  /** An append's own row is 72 hours from being trimmed. */
  lemma StoreKeepsLogOk(log: Log, row: Row, now: Instant, cutoff: Instant)
    requires LogOk(log) && WindowBefore(cutoff, now)
    requires row.number == log.last + 1 && row.created == Rfc3339Nano(now)
    ensures !Less(row.created, Rfc3339Nano(cutoff)) && LogOk(Stored(log, row, Rfc3339Nano(cutoff)))
  {
    LogTextOrder(now, cutoff);
    NewestStays(log, row, Rfc3339Nano(cutoff));
  }

  /** Trimming errs by less than a second: what is a whole second before the cutoff goes, what
      is a whole second after it stays. */
  lemma TrimmedByTime(rows: seq<Row>, r: Row, created: Instant, cutoff: Instant)
    requires r in rows && r.created == Rfc3339Nano(created)
    requires Valid(created) && Valid(cutoff) && Seconds(created) != Seconds(cutoff)
    ensures r in Trimmed(rows, Rfc3339Nano(cutoff)) <==> Seconds(cutoff) < Seconds(created)
  {
    TrimmedSelects(rows, Rfc3339Nano(cutoff));
    LogTextOrder(created, cutoff);
  }

  datatype Attempt = Attempt(did: string, event: Event, now: Instant, cutoff: Instant)

  function AfterAttempt(log: Log, a: Attempt): Result<Log, FrameError> {
    match NewRow(log, a.did, a.event, Rfc3339Nano(a.now))
    case Err(x) => Err(x)
    case Ok(row) => Ok(Stored(log, row, Rfc3339Nano(a.cutoff)))
  }

  /** The log after every attempt, successful or not. */
  function Run(attempts: seq<Attempt>): Log {
    if attempts == [] then Log([], 0) else
      var prior := Run(attempts[..|attempts| - 1]);
      match AfterAttempt(prior, attempts[|attempts| - 1]) case Ok(log) => log case Err(_) => prior
  }

  /** The numbers handed out, in order. */
  function Issued(attempts: seq<Attempt>): seq<nat> {
    if attempts == [] then [] else
      var prior := attempts[..|attempts| - 1];
      Issued(prior) +
      match AfterAttempt(Run(prior), attempts[|attempts| - 1]) case Ok(log) => [log.last] case Err(_) => []
  }

  ghost predicate WindowsOk(attempts: seq<Attempt>) {
    forall i :: 0 <= i < |attempts| ==> WindowBefore(attempts[i].cutoff, attempts[i].now)
  }

  /** Over any run of appends the log stays in order and its newest event is never trimmed. */
  lemma {:induction false} RunKeepsLogOk(attempts: seq<Attempt>)
    requires WindowsOk(attempts)
    ensures LogOk(Run(attempts))
  {
    if attempts != [] {
      var prior, a := attempts[..|attempts| - 1], attempts[|attempts| - 1];
      RunKeepsLogOk(prior);
      if AfterAttempt(Run(prior), a).Ok? {
        StoreKeepsLogOk(Run(prior), NewRow(Run(prior), a.did, a.event, Rfc3339Nano(a.now)).value, a.now, a.cutoff);
      }
    }
  }

  /** The numbers issued are exactly 1 to n, failures consuming none. */
  lemma {:induction false} IssuedConsecutive(attempts: seq<Attempt>)
    ensures Run(attempts).last == |Issued(attempts)|
    ensures forall i :: 0 <= i < |Issued(attempts)| ==> Issued(attempts)[i] == i + 1
  {
    if attempts != [] {
      IssuedConsecutive(attempts[..|attempts| - 1]);
    }
  }

  /** The latest number the log reports is the number of successful appends. */
  lemma LatestCountsAppends(attempts: seq<Attempt>)
    requires WindowsOk(attempts)
    ensures LatestSeq(Run(attempts)) == |Issued(attempts)|
    ensures Issued(attempts) != [] ==> EarliestSeq(Run(attempts)) > 0
  {
    RunKeepsLogOk(attempts);
    IssuedConsecutive(attempts);
  }

  /** Every stored row's frame carries the row's own number under the row's own type, provided
      no event carried an error variant. */
  lemma {:induction false} RunKeepsAgreement(attempts: seq<Attempt>)
    requires forall i :: 0 <= i < |attempts| ==> attempts[i].event.error.None?
    ensures RowsAgree(Run(attempts).rows)
  {
    if attempts != [] {
      var prior, a := attempts[..|attempts| - 1], attempts[|attempts| - 1];
      RunKeepsAgreement(prior);
      if AfterAttempt(Run(prior), a).Ok? {
        StampAgreesWithFrame(a.event, Run(prior).last + 1);
        StoreKeepsAgreement(Run(prior), NewRow(Run(prior), a.did, a.event, Rfc3339Nano(a.now)).value,
            Rfc3339Nano(a.cutoff));
      }
    }
  }

  lemma StoreKeepsAgreement(log: Log, row: Row, cutoff: string)
    requires RowsAgree(log.rows) && Carries(row.frame, row.tag, row.number)
    ensures RowsAgree(Stored(log, row, cutoff).rows)
  {
    var all := log.rows + [row];
    var kept := Trimmed(all, cutoff);
    TrimmedSelects(all, cutoff);
    forall i | 0 <= i < |kept| ensures Carries(kept[i].frame, kept[i].tag, kept[i].number) {
      assert kept[i] in all;
    }
  }
}
