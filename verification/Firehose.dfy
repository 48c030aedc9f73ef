/** The events of the firehose: stamping a sequence number into one, and its wire frame. */
module Firehose {
  import opened Common

  /** The body of a sequenced message. */
  datatype Body = Body(number: int, content: string)

  /** A tagged union in which exactly one field should be set. */
  datatype Event = Event(
    commit: Option<Body>, sync: Option<Body>, identity: Option<Body>, account: Option<Body>,
    info: Option<string>, error: Option<string>)

  datatype Frame =
    | Message(tag: string, body: Body)
    | Info(content: string)
    | Error(content: string)

  datatype FrameError = NotSequenceable | EmptyEvent

  function Stamp(e: Event, number: int): Result<(Event, string), FrameError> {
    if e.commit.Some? then Ok((e.(commit := Some(e.commit.value.(number := number))), "#commit"))
    else if e.sync.Some? then Ok((e.(sync := Some(e.sync.value.(number := number))), "#sync"))
    else if e.identity.Some? then Ok((e.(identity := Some(e.identity.value.(number := number))), "#identity"))
    else if e.account.Some? then Ok((e.(account := Some(e.account.value.(number := number))), "#account"))
    else Err(NotSequenceable)
  }

  /** An error outranks every other variant. */
  function Serialize(e: Event): Result<Frame, FrameError> {
    if e.error.Some? then Ok(Error(e.error.value))
    else if e.commit.Some? then Ok(Message("#commit", e.commit.value))
    else if e.sync.Some? then Ok(Message("#sync", e.sync.value))
    else if e.identity.Some? then Ok(Message("#identity", e.identity.value))
    else if e.account.Some? then Ok(Message("#account", e.account.value))
    else if e.info.Some? then Ok(Info(e.info.value))
    else Err(EmptyEvent)
  }

  /** The frame carries this number under this tag. */
  ghost predicate Carries(f: Frame, tag: string, number: int) {
    f.Message? && f.tag == tag && f.body.number == number
  }

  /** A stamped event always has a frame, and the frame carries the stamped number under the
      returned tag exactly when the event has no error variant. */
  lemma StampAgreesWithFrame(e: Event, number: int)
    requires Stamp(e, number).Ok?
    ensures var stamped := Stamp(e, number).value;
      && Serialize(stamped.0).Ok?
      && (Carries(Serialize(stamped.0).value, stamped.1, number) <==> e.error.None?)
  {
  }

  /** The event as the sequencer holds it while it stamps it. */
  class PendingEvent {
    var event: Event

    constructor (event: Event)
      ensures this.event == event
    {
      this.event := event;
    }

    method SeqOf(number: int) returns (res: Result<string, FrameError>)
      modifies this
      ensures match Stamp(old(event), number)
        case Ok(stamped) => res == Ok(stamped.1) && event == stamped.0
        case Err(e) => res == Err(e) && event == old(event)
    {
      if event.commit.Some? {
        event := event.(commit := Some(event.commit.value.(number := number)));
        return Ok("#commit");
      } else if event.sync.Some? {
        event := event.(sync := Some(event.sync.value.(number := number)));
        return Ok("#sync");
      } else if event.identity.Some? {
        event := event.(identity := Some(event.identity.value.(number := number)));
        return Ok("#identity");
      } else if event.account.Some? {
        event := event.(account := Some(event.account.value.(number := number)));
        return Ok("#account");
      }
      return Err(NotSequenceable);
    }
  }
}
