/** A response body that can be read up to a limit, however the connection splits it. */
module BoundedReader {
  import opened Common

  type Byte = bv8

  datatype Error = Eof | Broken | TooLarge

  /** The underlying body: what is still to come, how it ends, and how many more times a read
      may return nothing. Each read returns as much as it likes, and may report the end with
      the last bytes or after them. */
  class Source {
    const end: Error
    var rest: seq<Byte>
    var stalls: nat

    constructor (body: seq<Byte>, end: Error, stalls: nat)
      ensures rest == body && this.end == end && this.stalls == stalls
    {
      rest, this.end, this.stalls := body, end, stalls;
    }

    method Read(want: nat) returns (data: seq<Byte>, err: Option<Error>)
      requires want > 0
      modifies this
      ensures |data| <= want && old(rest) == data + rest
      ensures err.Some? ==> rest == [] && err == Some(end)
      ensures old(rest) == [] && stalls == old(stalls) ==> err.Some?
      ensures stalls <= old(stalls)
      ensures data == [] && err.None? ==> stalls < old(stalls)
    {
      if stalls > 0 {
        var stall: bool := *;
        if stall {
          stalls := stalls - 1;
          return [], None;
        }
      }
      if rest == [] {
        return [], Some(end);
      }
      var k: nat :| 0 < k <= want && k <= |rest|;
      data, rest := rest[..k], rest[k..];
      var atEnd: bool := *;
      err := if rest == [] && atEnd then Some(end) else None;
    }
  }

  function Capacity(remaining: int): nat {
    if remaining < 0 then 0 else remaining
  }

  /** Once the limit is used up, one more byte is an error and none is the end. */
  class MaxReader {
    const src: Source
    var remaining: int

    constructor (src: Source, limit: int)
      ensures this.src == src && remaining == limit
    {
      this.src, remaining := src, limit;
    }

    method Read(want: nat) returns (data: seq<Byte>, err: Option<Error>)
      requires want > 0 && src.end != TooLarge
      modifies this, src
      ensures src.stalls <= old(src.stalls)
      ensures err != Some(TooLarge) ==>
        && old(src.rest) == data + src.rest && |data| <= Capacity(old(remaining)) && |data| <= want
        && Capacity(remaining) == Capacity(old(remaining)) - |data|
      ensures err == Some(TooLarge) ==> data == [] && Capacity(old(remaining)) == 0 && old(src.rest) != []
      ensures err.Some? && err != Some(TooLarge) ==> src.rest == [] && err == Some(src.end)
      ensures err.None? ==> |src.rest| + src.stalls < |old(src.rest)| + old(src.stalls)
    {
      if remaining <= 0 {
        var extra, e := src.Read(1);
        if |extra| > 0 {
          return [], Some(TooLarge);
        }
        return [], e;
      }
      var n := want;
      if n > remaining {
        n := remaining;
      }
      data, err := src.Read(n);
      remaining := remaining - |data|;
    }

    /** Read to the end in pieces of whatever size: the whole body when it fits, and otherwise
        exactly the first `limit` bytes and an error. */
    method ReadAll() returns (out: seq<Byte>, err: Error)
      requires src.end != TooLarge
      modifies this, src
      ensures var body, limit := old(src.rest), Capacity(old(remaining));
        && (|body| <= limit ==> out == body && err == src.end)
        && (|body| > limit ==> out == body[..limit] && err == TooLarge)
    {
      ghost var body, limit := src.rest, Capacity(remaining);
      out := [];
      while true
        invariant body == out + src.rest && Capacity(remaining) == limit - |out|
        decreases |src.rest| + src.stalls
      {
        var want: nat :| want > 0;
        var data, e := Read(want);
        out := out + data;
        if e.Some? {
          return out, e.value;
        }
      }
    }
  }

  /** A declared length over the limit is refused before anything is read; -1 declares none. */
  method RoundTrip(src: Source, contentLength: int, limit: int) returns (res: Result<MaxReader, Error>)
    ensures res.Err? <==> contentLength > limit
    ensures res.Ok? ==> fresh(res.value) && res.value.src == src && res.value.remaining == limit
  {
    if contentLength > limit {
      return Err(TooLarge);
    }
    var r := new MaxReader(src, limit);
    return Ok(r);
  }

  /** A fetch yields the whole body or an error, never a part passed off as the whole. */
  method Fetch(src: Source, contentLength: int, limit: nat) returns (res: Result<seq<Byte>, Error>)
    requires src.end != TooLarge
    modifies src
    ensures res.Ok? <==> contentLength <= limit && |old(src.rest)| <= limit && src.end == Eof
    ensures res.Ok? ==> res.value == old(src.rest)
    ensures res.Err? && contentLength <= limit && |old(src.rest)| <= limit ==> res == Err(src.end)
    ensures res.Err? && (contentLength > limit || |old(src.rest)| > limit) ==> res == Err(TooLarge)
  {
    var reader := RoundTrip(src, contentLength, limit);
    if reader.Err? {
      return Err(TooLarge);
    }
    var out, err := reader.value.ReadAll();
    return if err == Eof then Ok(out) else Err(err);
  }
}
