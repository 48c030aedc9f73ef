/** Appends, trims, broadcasts and one connection interleaved: what the connection delivers.

    Other connections have channels of their own and do not appear. */
module Splice {
  import opened Common
  import opened Order
  import opened Firehose
  import opened Sequencer
  import opened Subscribe

  /** What the statements remember of a run: how many events had been announced at
      registration, what the backfill query returned, after which event the live part starts,
      and whether the query found every event after the cursor. */
  datatype Memo = Memo(start: nat, fetched: seq<Msg>, mark: nat, whole: bool)

  /** `history[n - 1]` is the frame committed under n; `pending` is committed and not yet announced. */
  datatype World = World(log: Log, history: seq<Frame>, pending: seq<Msg>, conn: Conn, memo: Memo)

  datatype Act =
    | Commit(row: Row, cutoff: string)
    | Broadcast(index: nat)
    | Register
    | ReadLatest
    | ReadEarliest
    | Query
    | SendOne
    | ReceiveOne
    | Disconnect

  function Start(cursor: Option<int>): World {
    World(Log([], 0), [], [], Opened(cursor), Memo(0, [], 0, true))
  }

  /** A committed row has the next number and is not trimmed by its own append. */
  predicate Enabled(w: World, a: Act) {
    match a
    case Commit(row, cutoff) => row.number == w.log.last + 1 && !Less(row.created, cutoff)
    case Broadcast(i) => i < |w.pending|
    case Register => w.conn.phase == Connected
    case ReadLatest => w.conn.phase == Registered
    case ReadEarliest => w.conn.phase == Measured && w.conn.cursor.Some?
    case Query => w.conn.phase == Checked && w.conn.cursor.Some?
    case SendOne => w.conn.phase == Backfilling
    case ReceiveOne => w.conn.phase == Live && w.conn.queue != []
    case Disconnect => true
  }

  predicate Listening(c: Conn) {
    c.phase != Connected && c.phase != Closed
  }

  /** Every event numbered after the cursor is stored. */
  ghost predicate Whole(log: Log, cursor: int) {
    forall n: nat :: 0 < n && cursor < n <= log.last ==> Holds(log.rows, n)
  }

  ghost function Next(w: World, a: Act): World
    requires Enabled(w, a)
  {
    var c := w.conn;
    match a
    case Commit(row, cutoff) =>
      w.(log := Stored(w.log, row, cutoff), history := w.history + [row.frame], pending := w.pending + [Announce(row)])
    case Broadcast(i) =>
      w.(pending := w.pending[..i] + w.pending[i + 1..],
         conn := if Listening(c) then c.(queue := Push(c.queue, w.pending[i])) else c)
    case Register =>
      w.(conn := c.(phase := Registered),
         memo := w.memo.(start := if |w.pending| <= |w.history| then |w.history| - |w.pending| else 0))
    case ReadLatest => w.(conn := SeeLatest(c, LatestSeq(w.log)), memo := w.memo.(mark := LatestSeq(w.log)))
    case ReadEarliest => w.(conn := SeeEarliest(c, EarliestSeq(w.log)), memo := w.memo.(mark := c.latest))
    case Query =>
      var msgs := Backlog(w.log.rows, c.cursor.value);
      var mark := if msgs == [] then w.memo.start else msgs[|msgs| - 1].number;
      w.(conn := SeeBacklog(c, msgs), memo := Memo(w.memo.start, msgs, mark, Whole(w.log, c.cursor.value)))
    case SendOne => w.(conn := SendNext(c))
    case ReceiveOne => w.(conn := Receive(c))
    case Disconnect => w.(conn := c.(phase := Closed))
  }

  ghost predicate Possible(cursor: Option<int>, acts: seq<Act>)
    decreases |acts|, 0
  {
    acts == [] ||
    (Possible(cursor, acts[..|acts| - 1]) && Enabled(After(cursor, acts[..|acts| - 1]), acts[|acts| - 1]))
  }

  ghost function After(cursor: Option<int>, acts: seq<Act>): World
    requires Possible(cursor, acts)
    decreases |acts|, 1
  {
    if acts == [] then Start(cursor) else Next(After(cursor, acts[..|acts| - 1]), acts[|acts| - 1])
  }

  // ----- every interleaving: numbers climb and frames are the committed ones -----

  ghost predicate Honest(msgs: seq<Msg>, history: seq<Frame>) {
    forall m :: m in msgs ==> 0 < m.number <= |history| && m.frame == history[m.number - 1]
  }

  ghost predicate HonestLog(log: Log, history: seq<Frame>) {
    && log.last == |history| && RowsAscend(log.rows)
    && forall r :: r in log.rows ==> 0 < r.number <= |history| && r.frame == history[r.number - 1]
  }

  /** What was sent climbs up to the last number sent, and the backlog goes on from there. */
  ghost predicate InStep(c: Conn) {
    && Climbing(c.sent) && Climbing(c.backlog) && Above(c.backlog, c.lastSent)
    && (forall i :: 0 <= i < |c.sent| ==> c.sent[i].number <= c.lastSent)
    && (c.phase in {Connected, Registered, Measured, Checked} ==> c.sent == [] && c.lastSent == 0)
    && (c.phase != Backfilling && c.phase != Closed ==> c.backlog == [])
  }

  ghost predicate Sincere(w: World) {
    && HonestLog(w.log, w.history) && Honest(w.pending, w.history)
    && Honest(w.conn.queue, w.history) && Honest(w.conn.backlog, w.history) && Honest(w.conn.sent, w.history)
    && InStep(w.conn)
  }

  lemma {:induction false} BacklogSelects(rows: seq<Row>, since: int)
    ensures forall m :: m in Backlog(rows, since) ==> m.number > since && exists r :: r in rows && m == Announce(r)
    ensures forall r :: r in rows && r.number > since ==> Announce(r) in Backlog(rows, since)
  {
    if rows != [] {
      var prior, r := rows[..|rows| - 1], rows[|rows| - 1];
      BacklogSelects(prior, since);
      assert rows == prior + [r];
    }
  }

  lemma {:induction false} BacklogClimbs(rows: seq<Row>, since: int)
    requires RowsAscend(rows)
    ensures Climbing(Backlog(rows, since))
  {
    if rows != [] {
      var prior, r := rows[..|rows| - 1], rows[|rows| - 1];
      BacklogClimbs(prior, since);
      BacklogSelects(prior, since);
      forall m | m in Backlog(prior, since) ensures m.number < r.number {
        var q :| q in prior && m == Announce(q);
      }
    }
  }

  lemma StoredStaysHonest(log: Log, history: seq<Frame>, row: Row, cutoff: string)
    requires HonestLog(log, history) && row.number == log.last + 1
    ensures HonestLog(Stored(log, row, cutoff), history + [row.frame])
  {
    var all := log.rows + [row];
    forall i, j | 0 <= i < j < |all| ensures all[i].number < all[j].number {
      assert all[i] in log.rows;
    }
    TrimmedSelects(all, cutoff);
  }

  lemma QueryStaysInStep(log: Log, history: seq<Frame>, c: Conn, cursor: int)
    requires HonestLog(log, history) && InStep(c) && c.phase == Checked
    ensures Honest(Backlog(log.rows, cursor), history)
    ensures InStep(SeeBacklog(c, Backlog(log.rows, cursor)))
  {
    var msgs := Backlog(log.rows, cursor);
    BacklogSelects(log.rows, cursor);
    BacklogClimbs(log.rows, cursor);
    forall m | m in msgs ensures 0 < m.number <= |history| && m.frame == history[m.number - 1] {
      var r :| r in log.rows && m == Announce(r);
    }
  }

  lemma ConnStaysInStep(c: Conn, history: seq<Frame>)
    requires InStep(c) && Honest(c.queue, history) && Honest(c.backlog, history) && Honest(c.sent, history)
    ensures c.phase == Backfilling ==>
      InStep(SendNext(c)) && Honest(SendNext(c).backlog, history) && Honest(SendNext(c).sent, history)
    ensures c.phase == Live && c.queue != [] ==>
      InStep(Receive(c)) && Honest(Receive(c).queue, history) && Honest(Receive(c).sent, history)
  {
  }

  lemma NextStaysSincere(w: World, a: Act)
    requires Sincere(w) && Enabled(w, a)
    ensures Sincere(Next(w, a))
  {
    match a
    case Commit(row, cutoff) => StoredStaysHonest(w.log, w.history, row, cutoff);
    case Broadcast(i) => assert w.pending[i] in w.pending;
    case Query => QueryStaysInStep(w.log, w.history, w.conn, w.conn.cursor.value);
    case SendOne => ConnStaysInStep(w.conn, w.history);
    case ReceiveOne => ConnStaysInStep(w.conn, w.history);
    case _ =>
  }

  lemma {:induction false} RunStaysSincere(cursor: Option<int>, acts: seq<Act>)
    requires Possible(cursor, acts)
    ensures Sincere(After(cursor, acts))
  {
    if acts != [] {
      RunStaysSincere(cursor, acts[..|acts| - 1]);
      NextStaysSincere(After(cursor, acts[..|acts| - 1]), acts[|acts| - 1]);
    }
  }

  /** In every interleaving, with drops, announcements out of order and concurrent trims, the
      numbers delivered strictly increase and each frame is the one committed under its number. */
  lemma DeliveredInOrder(cursor: Option<int>, acts: seq<Act>)
    requires Possible(cursor, acts)
    ensures var w := After(cursor, acts);
      && Climbing(w.conn.sent)
      && forall m :: m in w.conn.sent ==> 0 < m.number <= |w.history| && m.frame == w.history[m.number - 1]
  {
    RunStaysSincere(cursor, acts);
  }

  // ----- announcements in order: backfill and live tail meet without gap or repeat -----

  /** The committed events after n, in order. */
  function EventsAfter(history: seq<Frame>, n: nat): seq<Msg> {
    if n >= |history| then []
    else seq(|history| - n, i requires 0 <= i < |history| - n => Msg(n + i + 1, history[n + i]))
  }

  function Max(a: int, b: int): int {
    if a < b then b else a
  }

  lemma EventsGrow(history: seq<Frame>, f: Frame, n: nat)
    requires n <= |history|
    ensures EventsAfter(history + [f], n) == EventsAfter(history, n) + [Msg(|history| + 1, f)]
  {
    var all, k := EventsAfter(history + [f], n), |history| - n;
    assert forall i :: 0 <= i < k ==> all[i] == EventsAfter(history, n)[i];
    assert all[k] == Msg(|history| + 1, f);
  }

  lemma EventsStep(history: seq<Frame>, n: nat)
    requires n < |history|
    ensures EventsAfter(history, n) == [Msg(n + 1, history[n])] + EventsAfter(history, n + 1)
  {
  }

  lemma EventsMembers(history: seq<Frame>, n: nat)
    requires n <= |history|
    ensures |EventsAfter(history, n)| == |history| - n
    ensures Climbing(EventsAfter(history, n))
    ensures forall m :: m in EventsAfter(history, n) <==> n < m.number <= |history| && m.frame == history[m.number - 1]
  {
    forall m: Msg | n < m.number <= |history| && m.frame == history[m.number - 1] ensures m in EventsAfter(history, n) {
      assert EventsAfter(history, n)[m.number - n - 1] == m;
    }
  }

  /** What is fresh of the events after n are the events after the later of n and the last sent. */
  lemma {:induction false} FreshEvents(history: seq<Frame>, n: nat, last: nat)
    requires n <= |history| && last <= |history|
    ensures Fresh(EventsAfter(history, n), last) == EventsAfter(history, Max(n, last))
    decreases |history| - n
  {
    if n < |history| {
      EventsStep(history, n);
      FreshEvents(history, n + 1, if n + 1 <= last then last else n + 1);
      if last <= n {
        assert Max(n + 1, n + 1) == n + 1;
      }
    }
  }

  lemma {:induction false} ClimbingUnique(a: seq<Msg>, b: seq<Msg>)
    requires Climbing(a) && Climbing(b) && forall m :: m in a <==> m in b
    ensures a == b
  {
    assert a != [] ==> a[0] in b;
    assert b != [] ==> b[0] in a;
    if a != [] {
      forall m ensures m in a[1..] <==> m in b[1..] {
        assert m in a <==> m == a[0] || m in a[1..];
        assert m in b <==> m == b[0] || m in b[1..];
      }
      ClimbingUnique(a[1..], b[1..]);
    }
  }

  /** The number after which the next live message is fresh, once the backlog is out. */
  function Bound(c: Conn): nat {
    if c.backlog == [] then c.lastSent else c.backlog[|c.backlog| - 1].number
  }

  /** Everything sent, and everything already on its way that will be. */
  function Stream(w: World): seq<Msg> {
    w.conn.sent + w.conn.backlog + Fresh(w.conn.queue + w.pending, Bound(w.conn))
  }

  /** Events are announced in commit order and the channel has room. */
  predicate Orderly(w: World, a: Act) {
    a.Broadcast? ==> a.index == 0 && (Listening(w.conn) ==> |w.conn.queue| < CAPACITY)
  }

  ghost predicate AllOrderly(cursor: Option<int>, acts: seq<Act>)
    requires Possible(cursor, acts)
  {
    acts != [] ==>
      AllOrderly(cursor, acts[..|acts| - 1]) && Orderly(After(cursor, acts[..|acts| - 1]), acts[|acts| - 1])
  }

  /** The channel and what is still to be announced are the events after some number. */
  ghost predicate Queued(history: seq<Frame>, queue: seq<Msg>, pending: seq<Msg>, taken: int) {
    && 0 <= taken == |history| - |queue| - |pending|
    && queue + pending == EventsAfter(history, taken)
  }

  function Taken(w: World): int {
    |w.history| - |w.conn.queue| - |w.pending|
  }

  /** The splice: what was sent, what is left of the backlog, and the later events. */
  ghost predicate Spliced(history: seq<Frame>, c: Conn, taken: nat, memo: Memo) {
    && Bound(c) <= |history| && memo.mark <= |history| && taken <= |history|
    && c.sent + c.backlog + EventsAfter(history, Max(taken, Bound(c))) == memo.fetched + EventsAfter(history, memo.mark)
  }

  ghost predicate Waiting(history: seq<Frame>, c: Conn, taken: nat, memo: Memo) {
    && (c.phase == Connected ==> c.queue == [])
    && (c.phase in {Registered, Measured, Checked} ==> taken == memo.start)
    && (c.phase in {Connected, Registered, Measured, Checked} ==> memo.fetched == [])
    && (c.phase in {Measured, Checked} ==>
      c.cursor.Some? && c.cursor.value <= c.latest <= |history| && memo.start <= c.latest)
    && (c.phase in {Backfilling, Live} ==> Spliced(history, c, taken, memo))
  }

  ghost predicate Flowing(history: seq<Frame>, c: Conn, pending: seq<Msg>, memo: Memo) {
    c.phase != Closed ==>
      var taken := |history| - |c.queue| - |pending|;
      Queued(history, c.queue, pending, taken) && Waiting(history, c, taken, memo)
  }

  ghost predicate Tidy(w: World) {
    LogOk(w.log) && w.log.last == |w.history| && Flowing(w.history, w.conn, w.pending, w.memo)
  }

  lemma CommitKeepsSplice(history: seq<Frame>, f: Frame, queue: seq<Msg>, pending: seq<Msg>, taken: nat)
    requires Queued(history, queue, pending, taken)
    ensures Queued(history + [f], queue, pending + [Msg(|history| + 1, f)], taken)
  {
    EventsGrow(history, f, taken);
    assert queue + (pending + [Msg(|history| + 1, f)]) == (queue + pending) + [Msg(|history| + 1, f)];
  }

  lemma CommitKeepsSpliced(history: seq<Frame>, f: Frame, c: Conn, taken: nat, memo: Memo)
    requires Spliced(history, c, taken, memo)
    ensures Spliced(history + [f], c, taken, memo)
  {
    var m := [Msg(|history| + 1, f)];
    EventsGrow(history, f, Max(taken, Bound(c)));
    EventsGrow(history, f, memo.mark);
    assert c.sent + c.backlog + (EventsAfter(history, Max(taken, Bound(c))) + m) ==
           (c.sent + c.backlog + EventsAfter(history, Max(taken, Bound(c)))) + m;
    assert memo.fetched + (EventsAfter(history, memo.mark) + m) == (memo.fetched + EventsAfter(history, memo.mark)) + m;
  }

  lemma QueuedFits(history: seq<Frame>, queue: seq<Msg>, pending: seq<Msg>, taken: int)
    requires Queued(history, queue, pending, taken)
    ensures 0 <= taken <= |history|
  {
  }

  lemma CommitFlows(history: seq<Frame>, f: Frame, c: Conn, pending: seq<Msg>, memo: Memo)
    requires Flowing(history, c, pending, memo)
    ensures Flowing(history + [f], c, pending + [Msg(|history| + 1, f)], memo)
  {
    hide Queued, Spliced;
    var taken := |history| - |c.queue| - |pending|;
    if c.phase != Closed {
      QueuedFits(history, c.queue, pending, taken);
      CommitKeepsSplice(history, f, c.queue, pending, taken);
      if c.phase in {Backfilling, Live} {
        CommitKeepsSpliced(history, f, c, taken, memo);
      }
    }
  }

  lemma AnnounceKeepsQueued(history: seq<Frame>, queue: seq<Msg>, pending: seq<Msg>, taken: int)
    requires Queued(history, queue, pending, taken) && pending != []
    ensures Queued(history, queue + [pending[0]], pending[1..], taken)
    ensures queue == [] ==> Queued(history, queue, pending[1..], taken + 1)
  {
    assert (queue + [pending[0]]) + pending[1..] == queue + pending;
    EventsStep(history, taken);
    if queue == [] {
      assert queue + pending == pending;
      assert queue + pending[1..] == EventsAfter(history, taken)[1..];
    }
  }

  lemma SplicedIgnoresQueue(history: seq<Frame>, c: Conn, queue: seq<Msg>, taken: nat, memo: Memo)
    ensures Spliced(history, c.(queue := queue), taken, memo) <==> Spliced(history, c, taken, memo)
  {
  }

  lemma AnnounceFlows(history: seq<Frame>, c: Conn, pending: seq<Msg>, memo: Memo)
    requires Flowing(history, c, pending, memo) && pending != []
    ensures Flowing(history, if Listening(c) then c.(queue := c.queue + [pending[0]]) else c, pending[1..], memo)
  {
    hide Queued, Spliced;
    if c.phase != Closed {
      var taken := |history| - |c.queue| - |pending|;
      QueuedFits(history, c.queue, pending, taken);
      AnnounceKeepsQueued(history, c.queue, pending, taken);
      SplicedIgnoresQueue(history, c, c.queue + [pending[0]], taken, memo);
    }
  }

  /** The newest event is never trimmed, so a backlog ends at it. */
  lemma BacklogEndsAtLast(log: Log, since: int)
    requires LogOk(log)
    ensures var msgs := Backlog(log.rows, since);
      && (msgs == [] <==> since >= log.last || log.last == 0)
      && (msgs != [] ==> msgs[|msgs| - 1].number == log.last)
  {
    var msgs := Backlog(log.rows, since);
    BacklogSelects(log.rows, since);
    if msgs != [] && log.last <= since {
      assert msgs[0] in msgs;
      var r :| r in log.rows && msgs[0] == Announce(r);
      assert false;
    }
  }

  lemma QueryFlows(history: seq<Frame>, c: Conn, pending: seq<Msg>, memo: Memo, msgs: seq<Msg>, whole: bool)
    requires Flowing(history, c, pending, memo) && c.phase == Checked && c.sent == [] && c.lastSent == 0
    requires msgs != [] ==> msgs[|msgs| - 1].number == |history|
    ensures var mark := if msgs == [] then memo.start else msgs[|msgs| - 1].number;
      Flowing(history, SeeBacklog(c, msgs), pending, Memo(memo.start, msgs, mark, whole))
  {
    hide Queued;
    QueuedFits(history, c.queue, pending, |history| - |c.queue| - |pending|);
    assert EventsAfter(history, |history|) == [];
  }

  lemma LatestIsLast(log: Log)
    requires LogOk(log)
    ensures LatestSeq(log) == log.last
  {
  }

  lemma SendKeepsSpliced(history: seq<Frame>, c: Conn, taken: nat, memo: Memo)
    requires Spliced(history, c, taken, memo)
    ensures Spliced(history, SendNext(c), taken, memo)
  {
    if c.backlog != [] {
      assert (c.sent + [c.backlog[0]]) + c.backlog[1..] == c.sent + c.backlog;
    }
  }

  lemma SendFlows(history: seq<Frame>, c: Conn, pending: seq<Msg>, memo: Memo)
    requires Flowing(history, c, pending, memo) && c.phase == Backfilling
    ensures Flowing(history, SendNext(c), pending, memo)
  {
    hide Queued, Spliced;
    var taken := |history| - |c.queue| - |pending|;
    QueuedFits(history, c.queue, pending, taken);
    SendKeepsSpliced(history, c, taken, memo);
  }

  /** The channel's first message is the event after the last one taken. */
  lemma ReceiveTakesNext(history: seq<Frame>, queue: seq<Msg>, pending: seq<Msg>, taken: nat)
    requires Queued(history, queue, pending, taken) && queue != []
    ensures taken < |history| && queue[0] == Msg(taken + 1, history[taken])
    ensures Queued(history, queue[1..], pending, taken + 1)
  {
    hide EventsAfter;
    EventsStep(history, taken);
    assert queue[0] == (queue + pending)[0];
    assert queue[1..] + pending == (queue + pending)[1..] == EventsAfter(history, taken + 1);
  }

  lemma ReceiveKeepsSpliced(history: seq<Frame>, c: Conn, taken: nat, memo: Memo)
    requires taken < |history| && c.queue != [] && c.queue[0] == Msg(taken + 1, history[taken]) && c.backlog == []
    requires Spliced(history, c, taken, memo)
    ensures Spliced(history, Receive(c), taken + 1, memo)
  {
    EventsStep(history, taken);
    var first, rest := [c.queue[0]], EventsAfter(history, taken + 1);
    if taken + 1 > c.lastSent {
      assert c.sent + c.backlog + (first + rest) == (c.sent + first) + c.backlog + rest;
    }
  }

  lemma ReceiveFlows(history: seq<Frame>, c: Conn, pending: seq<Msg>, memo: Memo)
    requires Flowing(history, c, pending, memo) && c.phase == Live && c.queue != [] && c.backlog == []
    ensures Flowing(history, Receive(c), pending, memo)
  {
    hide Queued, Spliced;
    var taken := |history| - |c.queue| - |pending|;
    QueuedFits(history, c.queue, pending, taken);
    ReceiveTakesNext(history, c.queue, pending, taken);
    ReceiveKeepsSpliced(history, c, taken, memo);
  }

  /** Going live at the latest event, without a backfill. */
  lemma LatestSplices(history: seq<Frame>, c: Conn, taken: nat, memo: Memo)
    requires c.sent == [] && c.backlog == [] && memo.fetched == []
    requires taken <= c.lastSent == memo.mark <= |history|
    ensures Spliced(history, c, taken, memo)
  {
    assert [] + EventsAfter(history, memo.mark) == EventsAfter(history, memo.mark);
  }

  lemma LatestFlows(history: seq<Frame>, c: Conn, pending: seq<Msg>, memo: Memo)
    requires Flowing(history, c, pending, memo) && c.phase == Registered
    requires c.sent == [] && c.backlog == []
    ensures Flowing(history, SeeLatest(c, |history|), pending, memo.(mark := |history|))
  {
    hide Queued, Spliced;
    QueuedFits(history, c.queue, pending, |history| - |c.queue| - |pending|);
    var taken := |history| - |c.queue| - |pending|;
    if c.cursor.None? {
      LatestSplices(history, SeeLatest(c, |history|), taken, memo.(mark := |history|));
    }
  }

  lemma EarliestFlows(history: seq<Frame>, c: Conn, earliest: nat, pending: seq<Msg>, memo: Memo)
    requires Flowing(history, c, pending, memo) && c.phase == Measured
    requires c.sent == [] && c.backlog == []
    ensures Flowing(history, SeeEarliest(c, earliest), pending, memo.(mark := c.latest))
  {
    hide Queued, Spliced;
    QueuedFits(history, c.queue, pending, |history| - |c.queue| - |pending|);
    var taken := |history| - |c.queue| - |pending|;
    if SeeEarliest(c, earliest).phase == Live {
      LatestSplices(history, SeeEarliest(c, earliest), taken, memo.(mark := c.latest));
    }
  }

  lemma CloseFlows(history: seq<Frame>, c: Conn, pending: seq<Msg>, memo: Memo)
    ensures Flowing(history, c.(phase := Closed), pending, memo)
  {
  }

  lemma RegisterFlows(history: seq<Frame>, c: Conn, pending: seq<Msg>, memo: Memo)
    requires Flowing(history, c, pending, memo) && c.phase == Connected
    ensures |pending| <= |history|
    ensures Flowing(history, c.(phase := Registered), pending, memo.(start := |history| - |pending|))
  {
  }

  lemma NextStaysTidy(w: World, a: Act)
    requires Tidy(w) && InStep(w.conn) && Enabled(w, a) && Orderly(w, a)
    ensures Tidy(Next(w, a))
  {
    hide Flowing, LogOk;
    match a
    case Commit(row, cutoff) =>
      NewestStays(w.log, row, cutoff);
      CommitFlows(w.history, row.frame, w.conn, w.pending, w.memo);
    case Broadcast(i) =>
      assert w.pending[..0] + w.pending[1..] == w.pending[1..];
      AnnounceFlows(w.history, w.conn, w.pending, w.memo);
    case Query =>
      BacklogEndsAtLast(w.log, w.conn.cursor.value);
      QueryFlows(w.history, w.conn, w.pending, w.memo, Backlog(w.log.rows, w.conn.cursor.value),
          Whole(w.log, w.conn.cursor.value));
    case SendOne => SendFlows(w.history, w.conn, w.pending, w.memo);
    case ReceiveOne => ReceiveFlows(w.history, w.conn, w.pending, w.memo);
    case ReadLatest =>
      LatestIsLast(w.log);
      LatestFlows(w.history, w.conn, w.pending, w.memo);
    case ReadEarliest => EarliestFlows(w.history, w.conn, EarliestSeq(w.log), w.pending, w.memo);
    case Register => RegisterFlows(w.history, w.conn, w.pending, w.memo);
    case Disconnect => CloseFlows(w.history, w.conn, w.pending, w.memo);
  }

  lemma {:induction false} RunStaysTidy(cursor: Option<int>, acts: seq<Act>)
    requires Possible(cursor, acts) && AllOrderly(cursor, acts)
    ensures Tidy(After(cursor, acts))
  {
    if acts != [] {
      RunStaysTidy(cursor, acts[..|acts| - 1]);
      RunStaysSincere(cursor, acts[..|acts| - 1]);
      NextStaysTidy(After(cursor, acts[..|acts| - 1]), acts[|acts| - 1]);
    }
  }

  /** Announced in order, what is sent and on its way is the backfill followed by every event
      after the mark: the latest reported one without a backfill. */
  lemma SpliceLaw(cursor: Option<int>, acts: seq<Act>)
    requires Possible(cursor, acts) && AllOrderly(cursor, acts)
    requires After(cursor, acts).conn.phase in {Backfilling, Live}
    ensures var w := After(cursor, acts);
      Stream(w) == w.memo.fetched + EventsAfter(w.history, w.memo.mark)
  {
    hide LogOk, EventsAfter, Fresh, After;
    RunStaysTidy(cursor, acts);
    var w := After(cursor, acts);
    FreshEvents(w.history, Taken(w), Bound(w.conn));
  }

  /** Nothing is fetched without a cursor, or with one that is told off. */
  ghost predicate Unfetched(w: World) {
    && (w.conn.phase !in {Live, Closed} ==> w.conn.notices == [])
    && (w.conn.phase !in {Backfilling, Live, Closed} || w.conn.cursor.None? || w.conn.notices != [] ==>
      w.memo.fetched == [])
  }

  lemma {:induction false} RunStaysUnfetched(cursor: Option<int>, acts: seq<Act>)
    requires Possible(cursor, acts)
    ensures Unfetched(After(cursor, acts))
  {
    if acts != [] {
      RunStaysUnfetched(cursor, acts[..|acts| - 1]);
    }
  }

  /** Without a cursor, or with an outdated one, a live connection gets exactly the events
      after the latest one reported to it. */
  lemma LatestSplice(cursor: Option<int>, acts: seq<Act>)
    requires Possible(cursor, acts) && AllOrderly(cursor, acts)
    requires var c := After(cursor, acts).conn; c.phase == Live && (cursor.None? || c.notices != [])
    ensures var w := After(cursor, acts);
      w.conn.sent + Fresh(w.conn.queue + w.pending, w.conn.lastSent) == EventsAfter(w.history, w.memo.mark)
  {
    SpliceLaw(cursor, acts);
    RunStaysUnfetched(cursor, acts);
    RunStaysSincere(cursor, acts);
    RunKeepsCursor(cursor, acts);
    hide Fresh, EventsAfter, After;
    var w := After(cursor, acts);
    assert w.conn.sent + [] == w.conn.sent;
  }

  // ----- exactly when the stream is the events after the cursor -----

  ghost predicate Missed(memo: Memo, cursor: int, n: nat) {
    0 < n && cursor < n <= memo.mark && forall m :: m in memo.fetched ==> m.number != n
  }

  /** What a backfill query leaves behind, whatever is committed later. */
  ghost predicate Asked(history: seq<Frame>, cursor: int, memo: Memo) {
    && memo.mark <= |history| && cursor <= |history|
    && (memo.fetched == [] ==> memo.whole && memo.mark == memo.start <= Max(cursor, 0))
    && (memo.fetched != [] && memo.whole ==>
      memo.fetched + EventsAfter(history, memo.mark) == EventsAfter(history, Max(cursor, 0)))
    && (!memo.whole ==> exists n: nat :: Missed(memo, cursor, n))
  }

  ghost predicate Answered(w: World) {
    w.conn.phase in {Backfilling, Live} && w.conn.cursor.Some? && w.conn.notices == [] ==>
      Asked(w.history, w.conn.cursor.value, w.memo)
  }

  lemma StoredEvents(log: Log, history: seq<Frame>, since: int)
    requires HonestLog(log, history) && Whole(log, since)
    ensures forall m: Msg :: since < m.number && 0 < m.number <= |history| && m.frame == history[m.number - 1] ==>
      m in Backlog(log.rows, since)
  {
    BacklogSelects(log.rows, since);
    forall m: Msg | since < m.number && 0 < m.number <= |history| && m.frame == history[m.number - 1]
      ensures m in Backlog(log.rows, since)
    {
      assert Holds(log.rows, m.number);
      var i :| 0 <= i < |log.rows| && log.rows[i].number == m.number;
      assert log.rows[i] in log.rows;
      assert m == Announce(log.rows[i]);
    }
  }

  /** A query that misses nothing returns exactly the events after the cursor. */
  lemma WholeBacklog(log: Log, history: seq<Frame>, since: int)
    requires HonestLog(log, history) && Whole(log, since) && since <= |history|
    ensures Backlog(log.rows, since) == EventsAfter(history, Max(since, 0))
  {
    var msgs, events := Backlog(log.rows, since), EventsAfter(history, Max(since, 0));
    StoredEvents(log, history, since);
    BacklogSelects(log.rows, since);
    BacklogClimbs(log.rows, since);
    EventsMembers(history, Max(since, 0));
    forall m | m in msgs ensures m in events {
      var r :| r in log.rows && m == Announce(r);
    }
    ClimbingUnique(msgs, events);
  }

  lemma GapIsMissed(log: Log, cursor: int, memo: Memo)
    requires !Whole(log, cursor) && memo.fetched == Backlog(log.rows, cursor) && memo.mark == log.last
    ensures exists n: nat :: Missed(memo, cursor, n)
  {
    BacklogSelects(log.rows, cursor);
    var n: nat :| 0 < n && cursor < n <= log.last && !Holds(log.rows, n);
    forall m | m in memo.fetched ensures m.number != n {
      var r :| r in log.rows && m == Announce(r);
      var i :| 0 <= i < |log.rows| && log.rows[i] == r;
    }
    assert Missed(memo, cursor, n);
  }

  lemma QueryAnswers(w: World)
    requires Tidy(w) && HonestLog(w.log, w.history) && Enabled(w, Query)
    ensures Answered(Next(w, Query))
  {
    var cursor, memo := w.conn.cursor.value, Next(w, Query).memo;
    BacklogEndsAtLast(w.log, cursor);
    if !memo.whole {
      GapIsMissed(w.log, cursor, memo);
    } else if memo.fetched != [] {
      WholeBacklog(w.log, w.history, cursor);
      assert EventsAfter(w.history, memo.mark) == [];
    }
  }

  lemma CommitKeepsAsked(history: seq<Frame>, f: Frame, cursor: int, memo: Memo)
    requires Asked(history, cursor, memo)
    ensures Asked(history + [f], cursor, memo)
  {
    var m := [Msg(|history| + 1, f)];
    EventsGrow(history, f, memo.mark);
    EventsGrow(history, f, Max(cursor, 0));
    assert memo.fetched + (EventsAfter(history, memo.mark) + m) == (memo.fetched + EventsAfter(history, memo.mark)) + m;
  }

  lemma NextAnswers(w: World, a: Act)
    requires Answered(w) && Tidy(w) && HonestLog(w.log, w.history) && Enabled(w, a)
    ensures Answered(Next(w, a))
  {
    hide Flowing, LogOk, HonestLog;
    match a
    case Commit(row, _) =>
      if w.conn.cursor.Some? && Asked(w.history, w.conn.cursor.value, w.memo) {
        CommitKeepsAsked(w.history, row.frame, w.conn.cursor.value, w.memo);
      }
    case Query => QueryAnswers(w);
    case _ =>
  }

  lemma {:induction false} RunAnswers(cursor: Option<int>, acts: seq<Act>)
    requires Possible(cursor, acts) && AllOrderly(cursor, acts)
    ensures Answered(After(cursor, acts))
  {
    if acts != [] {
      RunAnswers(cursor, acts[..|acts| - 1]);
      RunStaysTidy(cursor, acts[..|acts| - 1]);
      RunStaysSincere(cursor, acts[..|acts| - 1]);
      NextAnswers(After(cursor, acts[..|acts| - 1]), acts[|acts| - 1]);
    }
  }

  lemma {:induction false} RunKeepsCursor(cursor: Option<int>, acts: seq<Act>)
    requires Possible(cursor, acts)
    ensures After(cursor, acts).conn.cursor == cursor
  {
    if acts != [] {
      RunKeepsCursor(cursor, acts[..|acts| - 1]);
    }
  }

  lemma StreamExact(history: seq<Frame>, cursor: int, memo: Memo)
    requires Asked(history, cursor, memo)
    ensures memo.fetched + EventsAfter(history, memo.mark) == EventsAfter(history, Max(cursor, 0)) <==>
      memo.whole && (cursor <= memo.start || memo.fetched != [])
  {
    var got, want := memo.fetched + EventsAfter(history, memo.mark), EventsAfter(history, Max(cursor, 0));
    EventsMembers(history, memo.mark);
    EventsMembers(history, Max(cursor, 0));
    if !memo.whole {
      var n: nat :| Missed(memo, cursor, n);
      var m := Msg(n, history[n - 1]);
      assert m in want;
      assert m !in memo.fetched && m !in EventsAfter(history, memo.mark);
      assert m !in got;
    }
  }

  /** A connection that asked for the events after a cursor, and was answered with a backfill,
      gets exactly those events if and only if the query missed none of them and either the
      cursor was not past the events announced at registration or the backfill was not empty.
      Otherwise an event is missing, or, because an empty backfill leaves the last number sent
      at zero, events up to the cursor come again. */
  lemma ExactSplice(cursor: int, acts: seq<Act>)
    requires Possible(Some(cursor), acts) && AllOrderly(Some(cursor), acts)
    requires After(Some(cursor), acts).conn.phase in {Backfilling, Live}
    requires After(Some(cursor), acts).conn.notices == []
    ensures var w := After(Some(cursor), acts);
      Stream(w) == EventsAfter(w.history, Max(cursor, 0)) <==>
        w.memo.whole && (cursor <= w.memo.start || w.memo.fetched != [])
  {
    SpliceLaw(Some(cursor), acts);
    RunAnswers(Some(cursor), acts);
    RunKeepsCursor(Some(cursor), acts);
    StreamExact(After(Some(cursor), acts).history, cursor, After(Some(cursor), acts).memo);
  }

  lemma OneMoreAct(cursor: Option<int>, acts: seq<Act>, a: Act)
    requires Possible(cursor, acts) && Enabled(After(cursor, acts), a)
    ensures Possible(cursor, acts + [a]) && After(cursor, acts + [a]) == Next(After(cursor, acts), a)
    ensures AllOrderly(cursor, acts) && Orderly(After(cursor, acts), a) ==> AllOrderly(cursor, acts + [a])
  {
    assert (acts + [a])[..|acts|] == acts;
  }

  /** Event 1 is committed before the connection registers and announced after it has. */
  lemma AnnouncedLate(row: Row, cutoff: string) returns (acts: seq<Act>)
    requires row.number == 1 && !Less(row.created, cutoff)
    ensures Possible(Some(1), acts) && AllOrderly(Some(1), acts)
        && acts == [Commit(row, cutoff), Register, Broadcast(0)]
    ensures After(Some(1), acts) == World(Log([row], 1), [row.frame], [],
      Opened(Some(1)).(phase := Registered, queue := [Announce(row)]), Memo(0, [], 0, true))
  {
    acts := [];
    assert Trimmed([row], cutoff) == [row];
    assert [] + [row] == [row];
    OneMoreAct(Some(1), acts, Commit(row, cutoff));
    acts := acts + [Commit(row, cutoff)];
    OneMoreAct(Some(1), acts, Register);
    acts := acts + [Register];
    OneMoreAct(Some(1), acts, Broadcast(0));
    acts := acts + [Broadcast(0)];
  }

  /** A client that already has event 1 asks for what follows it: nothing is stored. */
  lemma EmptyBackfill(row: Row, cutoff: string) returns (acts: seq<Act>)
    requires row.number == 1 && !Less(row.created, cutoff)
    ensures Possible(Some(1), acts) && AllOrderly(Some(1), acts)
    ensures |acts| == 6 && acts[0] == Commit(row, cutoff) && acts[1] == Register
    ensures After(Some(1), acts).conn ==
      Opened(Some(1)).(phase := Backfilling, latest := 1, queue := [Announce(row)])
  {
    acts := AnnouncedLate(row, cutoff);
    OneMoreAct(Some(1), acts, ReadLatest);
    acts := acts + [ReadLatest];
    OneMoreAct(Some(1), acts, ReadEarliest);
    acts := acts + [ReadEarliest];
    assert [row][..0] == [] && Backlog([row], 1) == [];
    OneMoreAct(Some(1), acts, Query);
    acts := acts + [Query];
  }

  /** A concrete repeat: event 1 is stored, and a client that has read it by backfill comes back
      with cursor 1 before it is announced. Its backfill is empty, and event 1 is sent again. */
  lemma EmptyBackfillRepeats(row: Row, cutoff: string) returns (acts: seq<Act>)
    requires row.number == 1 && !Less(row.created, cutoff)
    ensures Possible(Some(1), acts) && AllOrderly(Some(1), acts)
    ensures |acts| == 8 && acts[0] == Commit(row, cutoff) && acts[1] == Register
    ensures var c := After(Some(1), acts).conn;
      c.phase == Live && c.notices == [] && c.sent == [Announce(row)]
  {
    acts := EmptyBackfill(row, cutoff);
    OneMoreAct(Some(1), acts, SendOne);
    acts := acts + [SendOne];
    OneMoreAct(Some(1), acts, ReceiveOne);
    acts := acts + [ReceiveOne];
  }
}
