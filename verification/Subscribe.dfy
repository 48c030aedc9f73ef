/** One firehose connection: cursor cases, backfill, and the live loop. */
module Subscribe {
  import opened Common
  import opened Firehose
  import opened Sequencer

  /** Each arrow of the handler is one database read or one frame. */
  datatype Phase = Connected | Registered | Measured | Checked | Backfilling | Live | Closed

  datatype Conn = Conn(
    phase: Phase, cursor: Option<int>, queue: seq<Msg>, latest: nat, backlog: seq<Msg>, lastSent: nat,
    sent: seq<Msg>, notices: seq<Frame>)

  const FUTURE_CURSOR := Error("FutureCursor")
  const OUTDATED_CURSOR := Info("OutdatedCursor")

  function Opened(cursor: Option<int>): Conn {
    Conn(Connected, cursor, [], 0, [], 0, [], [])
  }

  /** Without a cursor the connection is live from the latest event on. */
  function SeeLatest(c: Conn, latest: nat): Conn {
    match c.cursor
    case None => c.(phase := Live, lastSent := latest)
    case Some(cursor) =>
      if cursor > latest then c.(phase := Closed, notices := c.notices + [FUTURE_CURSOR])
      else c.(phase := Measured, latest := latest)
  }

  /** A cursor before the stored window is told so and resumes from the latest event. */
  function SeeEarliest(c: Conn, earliest: nat): Conn
    requires c.cursor.Some?
  {
    if earliest > 0 && c.cursor.value < earliest - 1
    then c.(phase := Live, lastSent := c.latest, notices := c.notices + [OUTDATED_CURSOR])
    else c.(phase := Checked)
  }

  function SeeBacklog(c: Conn, msgs: seq<Msg>): Conn {
    c.(phase := Backfilling, backlog := msgs)
  }

  function SendNext(c: Conn): Conn {
    if c.backlog == [] then c.(phase := Live)
    else c.(backlog := c.backlog[1..], lastSent := c.backlog[0].number, sent := c.sent + [c.backlog[0]])
  }

  function Receive(c: Conn): Conn
    requires c.queue != []
  {
    var m := c.queue[0];
    if m.number <= c.lastSent then c.(queue := c.queue[1..])
    else c.(queue := c.queue[1..], lastSent := m.number, sent := c.sent + [m])
  }

  /** What the live loop sends of these messages, given the last number sent. */
  function Fresh(msgs: seq<Msg>, last: nat): seq<Msg> {
    if msgs == [] then []
    else if msgs[0].number <= last then Fresh(msgs[1..], last)
    else [msgs[0]] + Fresh(msgs[1..], msgs[0].number)
  }

  ghost predicate Climbing(msgs: seq<Msg>) {
    forall i, j :: 0 <= i < j < |msgs| ==> msgs[i].number < msgs[j].number
  }

  ghost predicate Above(msgs: seq<Msg>, last: int) {
    forall i :: 0 <= i < |msgs| ==> msgs[i].number > last
  }

  /** In whatever order messages come in, what goes out climbs. */
  lemma {:induction false} FreshClimbs(msgs: seq<Msg>, last: nat)
    ensures Climbing(Fresh(msgs, last)) && Above(Fresh(msgs, last), last)
    ensures forall m :: m in Fresh(msgs, last) ==> m in msgs
  {
    if msgs == [] {
    } else if msgs[0].number <= last {
      FreshClimbs(msgs[1..], last);
    } else {
      FreshClimbs(msgs[1..], msgs[0].number);
    }
  }

  /** n frames of the backlog sent one by one. */
  function SendMany(c: Conn, n: nat): Conn
    decreases n
  {
    if n == 0 then c else SendMany(SendNext(c), n - 1)
  }

  /** n messages taken off the channel one by one. */
  function ReceiveMany(c: Conn, n: nat): Conn
    requires n <= |c.queue|
    decreases n
  {
    if n == 0 then c else ReceiveMany(Receive(c), n - 1)
  }

  /** Frame by frame, a backlog goes out unchanged and leaves the last number sent at its last,
      or where it was when there is nothing to send. */
  lemma {:induction false} SendingSends(c: Conn, n: nat)
    requires n <= |c.backlog|
    ensures var d := SendMany(c, n);
      && d.sent == c.sent + c.backlog[..n] && d.backlog == c.backlog[n..]
      && d.lastSent == (if n == 0 then c.lastSent else c.backlog[n - 1].number)
      && d.queue == c.queue && d.notices == c.notices && d.phase == c.phase
    decreases n
  {
    if n > 0 {
      SendingSends(SendNext(c), n - 1);
      assert c.backlog[..n] == [c.backlog[0]] + c.backlog[1..][..n - 1];
    }
  }

  /** Message by message, the live loop sends exactly the fresh ones. */
  lemma {:induction false} ReceivingSendsFresh(c: Conn)
    ensures var d := ReceiveMany(c, |c.queue|);
      && d.sent == c.sent + Fresh(c.queue, c.lastSent) && d.queue == []
      && d.lastSent >= c.lastSent && d.notices == c.notices && d.phase == c.phase
    decreases |c.queue|
  {
    if c.queue != [] {
      ReceivingSendsFresh(Receive(c));
    }
  }

  function Shorter(n: nat, m: nat): nat {
    if n < m then n else m
  }

  /** The handler's state. `accepts` below is how many more frames the socket takes before a write fails. */
  class Connection {
    const cursor: Option<int>
    const channel: Channel
    var phase: Phase
    var latest: nat
    var lastSent: nat
    var sent: seq<Msg>
    var notices: seq<Frame>

    function View(): Conn
      reads this, channel
    {
      Conn(phase, cursor, channel.queue, latest, [], lastSent, sent, notices)
    }

    /** The channel is registered before anything is read. */
    constructor (cursor: Option<int>, channel: Channel)
      ensures this.cursor == cursor && this.channel == channel
      ensures phase == Registered && latest == 0 && lastSent == 0 && sent == [] && notices == []
    {
      this.cursor, this.channel := cursor, channel;
      phase, latest, lastSent, sent, notices := Registered, 0, 0, [], [];
    }

    method OnLatest(reported: nat)
      modifies this
      ensures View() == SeeLatest(old(View()), reported)
    {
      if cursor.None? {
        lastSent, phase := reported, Live;
      } else if cursor.value > reported {
        notices, phase := notices + [FUTURE_CURSOR], Closed;
      } else {
        latest, phase := reported, Measured;
      }
    }

    method OnEarliest(earliest: nat)
      requires cursor.Some?
      modifies this
      ensures View() == SeeEarliest(old(View()), earliest)
    {
      if earliest > 0 && cursor.value < earliest - 1 {
        notices := notices + [OUTDATED_CURSOR];
        lastSent, phase := latest, Live;
      } else {
        phase := Checked;
      }
    }

    method Backfill(msgs: seq<Msg>, accepts: nat)
      modifies this
      ensures var k := Shorter(accepts, |msgs|);
        && sent == old(sent) + msgs[..k]
        && lastSent == (if k == 0 then old(lastSent) else msgs[k - 1].number)
        && phase == (if k < |msgs| then Closed else Live)
      ensures latest == old(latest) && notices == old(notices)
    {
      for i := 0 to |msgs|
        invariant i <= accepts && sent == old(sent) + msgs[..i]
        invariant lastSent == if i == 0 then old(lastSent) else msgs[i - 1].number
        invariant latest == old(latest) && notices == old(notices)
      {
        if i == accepts {
          phase := Closed;
          return;
        }
        sent, lastSent := sent + [msgs[i]], msgs[i].number;
      }
      phase := Live;
    }

    /** The select loop over what the channel holds. */
    method Follow(accepts: nat)
      requires phase == Live
      modifies this, channel
      ensures var out := Fresh(old(channel.queue), old(lastSent));
        var k := Shorter(accepts, |out|);
        && sent == old(sent) + out[..k]
        && lastSent == (if k == 0 then old(lastSent) else out[k - 1].number)
        && phase == (if k < |out| then Closed else Live)
        && (phase == Live ==> channel.queue == [])
      ensures latest == old(latest) && notices == old(notices)
    {
      ghost var out := Fresh(channel.queue, lastSent);
      ghost var k: nat := 0;
      var before := |sent|;
      while channel.queue != []
        invariant k <= accepts && k <= |out|
        invariant sent == old(sent) + out[..k] && out[k..] == Fresh(channel.queue, lastSent)
        invariant lastSent == if k == 0 then old(lastSent) else out[k - 1].number
        invariant phase == Live && latest == old(latest) && notices == old(notices)
        invariant |sent| == before + k
        decreases |channel.queue|
      {
        var m := channel.queue[0];
        channel.queue := channel.queue[1..];
        if m.number <= lastSent {
          continue;
        }
        assert out[k] == m && out[k + 1..] == out[k..][1..];
        if |sent| - before == accepts {
          phase := Closed;
          return;
        }
        sent, lastSent := sent + [m], m.number;
        k := k + 1;
      }
    }
  }
}
