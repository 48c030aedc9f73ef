/** What becomes of an event whose announcement a full channel drops. */
module Drops {
  import opened Common
  import opened Firehose
  import opened Sequencer
  import opened Subscribe
  import opened Splice

  ghost predicate Has(msgs: seq<Msg>, n: nat) {
    exists m :: m in msgs && m.number == n
  }

  ghost predicate Outgoing(c: Conn, n: nat) {
    Has(c.sent, n) || Has(c.backlog, n)
  }

  /** The connection sends, or has sent, this event exactly if its query returned it. */
  ghost predicate ByQuery(w: World, n: nat) {
    Outgoing(w.conn, n) <==> Has(w.memo.fetched, n)
  }

  ghost predicate Known(msgs: seq<Msg>, last: nat) {
    forall m :: m in msgs ==> m.number <= last
  }

  /** An event that is neither to be announced nor in the channel. */
  ghost predicate OnlyByQuery(w: World, n: nat) {
    n <= |w.history| && !Has(w.pending, n) && !Has(w.conn.queue, n) && ByQuery(w, n)
  }

  /** Events still to be announced are different and not in the channel. */
  ghost predicate Unannounced(w: World) {
    && Known(w.memo.fetched, |w.history|)
    && (forall i, j :: 0 <= i < j < |w.pending| ==> w.pending[i].number != w.pending[j].number)
    && forall m :: m in w.pending ==> !Has(w.conn.queue, m.number) && ByQuery(w, m.number)
  }

  /** Nothing but the query puts the event into the backlog. */
  lemma NextStaysByQuery(w: World, a: Act, n: nat)
    requires Sincere(w) && Unfetched(w) && Enabled(w, a) && ByQuery(w, n) && !Has(w.conn.queue, n)
    ensures ByQuery(Next(w, a), n)
  {
    var c := w.conn;
    match a
    case SendOne =>
      if c.backlog != [] {
        assert forall m :: m in c.backlog <==> m == c.backlog[0] || m in c.backlog[1..];
        assert forall m :: m in c.sent + [c.backlog[0]] <==> m in c.sent || m == c.backlog[0];
      }
    case ReceiveOne =>
      assert c.queue[0] in c.queue;
      assert forall m :: m in c.sent + [c.queue[0]] <==> m in c.sent || m == c.queue[0];
    case _ =>
  }

  lemma NextStaysOnlyByQuery(w: World, a: Act, n: nat)
    requires Sincere(w) && Unfetched(w) && Enabled(w, a) && OnlyByQuery(w, n)
    ensures OnlyByQuery(Next(w, a), n)
  {
    NextStaysByQuery(w, a, n);
    match a
    case Commit(row, _) =>
      assert forall m :: m in w.pending + [Announce(row)] <==> m in w.pending || m == Announce(row);
    case Broadcast(i) => BroadcastMoves(w, i);
    case _ =>
  }

  /** What is left to announce, and what the channel may have got. */
  lemma BroadcastMoves(w: World, i: nat)
    requires i < |w.pending|
    ensures var w' := Next(w, Broadcast(i));
      && (forall m :: m in w'.pending ==> m in w.pending)
      && (forall m :: m in w'.conn.queue ==> m in w.conn.queue || m == w.pending[i])
      && (!(Listening(w.conn) && |w.conn.queue| < CAPACITY) ==> w'.conn.queue == w.conn.queue)
  {
  }

  lemma BroadcastRemoves(w: World, i: nat)
    requires i < |w.pending| && Unannounced(w)
    ensures !Has(Next(w, Broadcast(i)).pending, w.pending[i].number)
  {
    var rest := w.pending[..i] + w.pending[i + 1..];
    forall m | m in rest ensures m.number != w.pending[i].number {
      var j :| 0 <= j < |rest| && rest[j] == m;
      assert m == w.pending[if j < i then j else j + 1];
    }
  }

  lemma CommitStaysUnannounced(w: World, row: Row, cutoff: string)
    requires Sincere(w) && Unfetched(w) && Unannounced(w) && Enabled(w, Commit(row, cutoff))
    ensures Unannounced(Next(w, Commit(row, cutoff)))
  {
    var w' := Next(w, Commit(row, cutoff));
    forall i, j | 0 <= i < j < |w'.pending| ensures w'.pending[i].number != w'.pending[j].number {
      assert w'.pending[i] in w.pending;
    }
    assert !Has(w.conn.queue, row.number) && !Outgoing(w.conn, row.number) && !Has(w.memo.fetched, row.number);
    forall m | m in w'.pending ensures !Has(w'.conn.queue, m.number) && ByQuery(w', m.number) {
      if m in w.pending {
        assert ByQuery(w, m.number);
      }
    }
  }

  lemma BroadcastStaysUnannounced(w: World, i: nat)
    requires Unannounced(w) && i < |w.pending|
    ensures Unannounced(Next(w, Broadcast(i)))
  {
    var w' := Next(w, Broadcast(i));
    BroadcastMoves(w, i);
    BroadcastRemoves(w, i);
    forall m | m in w'.pending ensures !Has(w'.conn.queue, m.number) && ByQuery(w', m.number) {
      assert m in w.pending && ByQuery(w, m.number);
      assert m.number != w.pending[i].number;
    }
  }

  lemma OtherStaysUnannounced(w: World, a: Act)
    requires Sincere(w) && Unfetched(w) && Unannounced(w) && Enabled(w, a) && !a.Commit? && !a.Broadcast?
    requires Known(Next(w, a).memo.fetched, |w.history|)
    ensures Unannounced(Next(w, a))
  {
    var w' := Next(w, a);
    forall m | m in w'.pending ensures !Has(w'.conn.queue, m.number) && ByQuery(w', m.number) {
      assert m in w.pending;
      NextStaysByQuery(w, a, m.number);
    }
  }

  lemma NextStaysUnannounced(w: World, a: Act)
    requires Sincere(w) && Unfetched(w) && Unannounced(w) && Enabled(w, a)
    ensures Unannounced(Next(w, a))
  {
    match a
    case Commit(row, cutoff) => CommitStaysUnannounced(w, row, cutoff);
    case Broadcast(i) => BroadcastStaysUnannounced(w, i);
    case Query =>
      QueryStaysInStep(w.log, w.history, w.conn, w.conn.cursor.value);
      OtherStaysUnannounced(w, a);
    case _ => OtherStaysUnannounced(w, a);
  }

  lemma {:induction false} RunStaysUnannounced(cursor: Option<int>, acts: seq<Act>)
    requires Possible(cursor, acts)
    ensures Unannounced(After(cursor, acts))
  {
    if acts != [] {
      RunStaysUnannounced(cursor, acts[..|acts| - 1]);
      RunStaysSincere(cursor, acts[..|acts| - 1]);
      RunStaysUnfetched(cursor, acts[..|acts| - 1]);
      NextStaysUnannounced(After(cursor, acts[..|acts| - 1]), acts[|acts| - 1]);
    }
  }

  /** Act k announces an event to a connection whose channel is full. */
  ghost predicate Drop(cursor: Option<int>, acts: seq<Act>, k: nat)
    requires Possible(cursor, acts)
  {
    k < |acts| && acts[k].Broadcast? && Possible(cursor, acts[..k]) &&
    var w := After(cursor, acts[..k]);
    acts[k].index < |w.pending| && Listening(w.conn) && |w.conn.queue| == CAPACITY
  }

  ghost function Dropped(cursor: Option<int>, acts: seq<Act>, k: nat): nat
    requires Possible(cursor, acts) && Drop(cursor, acts, k)
  {
    After(cursor, acts[..k]).pending[acts[k].index].number
  }

  /** A query, once made, is not made again. */
  predicate Queried(c: Conn) {
    c.phase in {Backfilling, Live, Closed}
  }

  lemma {:induction false} DropDecides(cursor: Option<int>, acts: seq<Act>, k: nat)
    requires Possible(cursor, acts) && Drop(cursor, acts, k)
    ensures OnlyByQuery(After(cursor, acts), Dropped(cursor, acts, k))
    ensures Queried(After(cursor, acts[..k]).conn) ==>
      Queried(After(cursor, acts).conn) && After(cursor, acts).memo.fetched == After(cursor, acts[..k]).memo.fetched
  {
    var prior := acts[..|acts| - 1];
    RunStaysSincere(cursor, prior);
    RunStaysUnfetched(cursor, prior);
    if k == |acts| - 1 {
      RunStaysUnannounced(cursor, prior);
      var w, i := After(cursor, prior), acts[k].index;
      assert w.pending[i] in w.pending;
      BroadcastMoves(w, i);
      BroadcastRemoves(w, i);
    } else {
      assert prior[..k] == acts[..k];
      DropDecides(cursor, prior, k);
      NextStaysOnlyByQuery(After(cursor, prior), acts[|acts| - 1], Dropped(cursor, acts, k));
    }
  }

  /** A dropped event is delivered exactly if the connection's query returns it: it is never sent
      from the channel again, and if the query was already past and had not returned it, it is
      lost to the connection for good, whether or not a later event is sent. */
  lemma DroppedOnlyByQuery(cursor: Option<int>, acts: seq<Act>, k: nat)
    requires Possible(cursor, acts) && Drop(cursor, acts, k)
    ensures var w, n := After(cursor, acts), Dropped(cursor, acts, k);
      && (Has(w.conn.sent, n) || Has(w.conn.backlog, n) <==> Has(w.memo.fetched, n))
      && !Has(w.conn.queue, n) && !Has(w.pending, n)
    ensures var w, before, n := After(cursor, acts), After(cursor, acts[..k]), Dropped(cursor, acts, k);
      Queried(before.conn) && !Has(before.memo.fetched, n) ==> !Has(w.conn.sent, n)
  {
    DropDecides(cursor, acts, k);
  }

  // ----- a run with a drop -----

  /** A live connection that reads nothing, after so many events. */
  ghost predicate Idling(w: World, n: nat) {
    && w.conn.phase == Live && w.conn.cursor == None && w.conn.lastSent == 0 && w.conn.sent == []
    && w.log.last == n && |w.history| == n && w.pending == [] && w.memo.fetched == []
    && |w.conn.queue| == if n < CAPACITY then n else CAPACITY
  }

  lemma {:induction false} Idle(n: nat, did: string, f: Frame) returns (acts: seq<Act>)
    ensures Possible(None, acts) && Idling(After(None, acts), n)
  {
    if n == 0 {
      acts := [];
      OneMoreAct(None, acts, Register);
      acts := acts + [Register];
      OneMoreAct(None, acts, ReadLatest);
      acts := acts + [ReadLatest];
    } else {
      acts := Idle(n - 1, did, f);
      var row := Row(n, did, "#commit", f, "");
      OneMoreAct(None, acts, Commit(row, ""));
      acts := acts + [Commit(row, "")];
      OneMoreAct(None, acts, Broadcast(0));
      acts := acts + [Broadcast(0)];
    }
  }

  /** It happens: a connection that is 256 events behind does not get the 257th, then or later. */
  lemma DropHappens(did: string, f: Frame) returns (acts: seq<Act>, k: nat)
    ensures Possible(None, acts) && Drop(None, acts, k) && Dropped(None, acts, k) == 257
    ensures forall more :: acts <= more && Possible(None, more) ==> !Has(After(None, more).conn.sent, 257)
  {
    acts := Idle(CAPACITY, did, f);
    var row := Row(257, did, "#commit", f, "");
    OneMoreAct(None, acts, Commit(row, ""));
    acts := acts + [Commit(row, "")];
    OneMoreAct(None, acts, Broadcast(0));
    k := |acts|;
    var before := acts;
    acts := acts + [Broadcast(0)];
    assert acts[..k] == before;
    forall more | acts <= more && Possible(None, more) ensures !Has(After(None, more).conn.sent, 257) {
      assert more[..k] == before && more[k] == Broadcast(0);
      DroppedOnlyByQuery(None, more, k);
    }
  }
}
