/** What the limiter owes a client: which attempts it must accept, and who counts as one client. */
module RateGuarantee {
  import opened RateLimiter

  /** In no window since an earlier call of the client would this one be too many. */
  ghost predicate Entitled(lim: Limits, start: real, calls: seq<Call>, c: Call) {
    && lim.burst >= 1
    && forall i :: 0 <= i < |calls| && calls[i].key == c.key ==> Fits(lim, start, calls, c, i)
  }

  /** One more after n is within the burst and the refill of the time between. */
  ghost predicate RoomFor(lim: Limits, n: nat, from: real, now: real) {
    n as real + 1.0 <= lim.burst as real + lim.rate * (now - from)
  }

  ghost predicate Fits(lim: Limits, start: real, calls: seq<Call>, c: Call, i: nat)
    requires i < |calls|
  {
    RoomFor(lim, Accepted(lim, start, calls, c.key, i), calls[i].now, c.now)
  }

  /** The bucket was full at call i, and has since been refilled and taken from. */
  ghost predicate FullAt(lim: Limits, start: real, calls: seq<Call>, key: Addr, b: Bucket, i: nat) {
    && i < |calls| && calls[i].key == key && calls[i].now <= b.last <= calls[|calls| - 1].now
    && b.tokens == lim.burst as real + Refill(lim, b.last - calls[i].now) - Accepted(lim, start, calls, key, i) as real
  }

  lemma OtherCall(lim: Limits, start: real, calls: seq<Call>, c: Call, key: Addr, i: nat)
    requires c.key != key && key in Run(lim, start, calls + [c]).buckets
    requires calls != [] ==> calls[|calls| - 1].now <= c.now
    requires key in Run(lim, start, calls).buckets ==>
      FullAt(lim, start, calls, key, Run(lim, start, calls).buckets[key], i)
    ensures key in Run(lim, start, calls).buckets
    ensures FullAt(lim, start, calls + [c], key, Run(lim, start, calls + [c]).buckets[key], i)
  {
    hide Refill, Take;
    AcceptedSnoc(lim, start, calls, c, key, if i <= |calls| then i else 0);
  }

  /** What taking leaves in a bucket that was full at call i: it is full now, or still as of i. */
  lemma TakeCounts(lim: Limits, start: real, calls: seq<Call>, key: Addr, b: Bucket, now: real, i: nat)
    requires FullAt(lim, start, calls, key, b, i) && b.last <= now
    ensures var (b', ok) := Take(lim, b, now);
      && (!ok ==> b' == b.(lastSeen := now))
      && (ok ==> b'.last == now)
      && (ok && b'.tokens != lim.burst as real - 1.0 ==>
        b'.tokens == lim.burst as real + Refill(lim, now - calls[i].now)
          - Accepted(lim, start, calls, key, i) as real - 1.0)
  {
    hide Accepted, Refill;
    RefillSplits(lim, calls[i].now, b.last, now);
  }

  lemma OwnCall(lim: Limits, start: real, calls: seq<Call>, c: Call, i: nat) returns (j: nat)
    requires Valid(lim) && (calls != [] ==> calls[|calls| - 1].now <= c.now)
    requires c.key in Run(lim, start, calls).buckets ==>
      FullAt(lim, start, calls, c.key, Run(lim, start, calls).buckets[c.key], i)
    ensures FullAt(lim, start, calls + [c], c.key, Run(lim, start, calls + [c]).buckets[c.key], j)
  {
    var st, all := Run(lim, start, calls), calls + [c];
    var swept := Swept(lim, st, c.now);
    var b := BucketOf(lim, swept, c.key, c.now);
    AcceptedSnoc(lim, start, calls, c, c.key, |calls|);
    RefillRises(lim, 0.0, 0.0);
    hide Refill, Available;
    assert all[|calls|] == c && c.now - c.now == 0.0;
    if c.key in swept.buckets {
      AcceptedSnoc(lim, start, calls, c, c.key, i);
      TakeCounts(lim, start, calls, c.key, b, c.now, i);
      var (b', ok) := Take(lim, b, c.now);
      j := if ok && b'.tokens == lim.burst as real - 1.0 then |calls| else i;
    } else {
      NoWait(lim, lim.burst as real, c.now);
      j := |calls|;
    }
  }

  lemma {:induction false} BucketWasFull(lim: Limits, start: real, calls: seq<Call>, key: Addr) returns (i: nat)
    requires Valid(lim) && InOrder(start, calls) && key in Run(lim, start, calls).buckets
    ensures FullAt(lim, start, calls, key, Run(lim, start, calls).buckets[key], i)
  {
    var prior, c := calls[..|calls| - 1], calls[|calls| - 1];
    assert calls == prior + [c];
    i := 0;
    hide FullAt, Attempt;
    if key in Run(lim, start, prior).buckets {
      i := BucketWasFull(lim, start, prior, key);
    }
    if c.key == key {
      i := OwnCall(lim, start, prior, c, i);
    } else {
      OtherCall(lim, start, prior, c, key, i);
    }
  }

  /** An attempt the client is entitled to is accepted, whatever others do and whenever buckets
      are swept. */
  lemma EntitledIsAccepted(lim: Limits, start: real, calls: seq<Call>, c: Call)
    requires Valid(lim) && InOrder(start, calls + [c]) && Entitled(lim, start, calls, c)
    ensures Attempt(lim, Run(lim, start, calls), c.key, c.now).1
  {
    var st := Run(lim, start, calls);
    assert (calls + [c])[|calls|] == c && forall i :: 0 <= i < |calls| ==> (calls + [c])[i] == calls[i];
    if c.key in Swept(lim, st, c.now).buckets {
      var i := BucketWasFull(lim, start, calls, c.key);
      FullSuffices(lim, start, calls, c, st.buckets[c.key], i);
    } else {
      NoWait(lim, lim.burst as real, c.now);
    }
  }

  lemma FullSuffices(lim: Limits, start: real, calls: seq<Call>, c: Call, b: Bucket, i: nat)
    requires FullAt(lim, start, calls, c.key, b, i) && b.last <= c.now
    requires lim.burst >= 1 && Fits(lim, start, calls, c, i)
    ensures Available(lim, b, c.now) >= 1.0
  {
    FitsRefill(lim, start, calls, c, i);
    hide Accepted, Refill, Fits;
    RefillSplits(lim, calls[i].now, b.last, c.now);
  }

  lemma FitsRefill(lim: Limits, start: real, calls: seq<Call>, c: Call, i: nat)
    requires i < |calls| && Fits(lim, start, calls, c, i)
    ensures Accepted(lim, start, calls, c.key, i) as real + 1.0
      <= lim.burst as real + Refill(lim, c.now - calls[i].now)
  {
    hide Accepted;
  }

  /** Limits that keep their rate accept exactly the attempts their clients are entitled to. */
  lemma AcceptedIffEntitled(lim: Limits, start: real, calls: seq<Call>, c: Call)
    requires Valid(lim) && InOrder(start, calls + [c]) && KeepsRate(lim)
    ensures Attempt(lim, Run(lim, start, calls), c.key, c.now).1 <==> Entitled(lim, start, calls, c)
  {
    if Entitled(lim, start, calls, c) {
      EntitledIsAccepted(lim, start, calls, c);
    }
    if Attempt(lim, Run(lim, start, calls), c.key, c.now).1 {
      forall i | 0 <= i < |calls| && calls[i].key == c.key ensures Fits(lim, start, calls, c, i) {
        AcceptedFits(lim, start, calls, c, i);
      }
      AcceptedHasBurst(lim, start, calls, c);
    }
  }

  lemma AcceptedFits(lim: Limits, start: real, calls: seq<Call>, c: Call, i: nat)
    requires InOrder(start, calls + [c]) && KeepsRate(lim) && i < |calls|
    requires Attempt(lim, Run(lim, start, calls), c.key, c.now).1
    ensures Fits(lim, start, calls, c, i)
  {
    hide *;
    AcceptedSnoc(lim, start, calls, c, c.key, i);
    KeptWithin(lim, start, calls + [c], c.key, i);
    WithinFits(lim, start, calls, c, i);
  }

  lemma KeptWithin(lim: Limits, start: real, calls: seq<Call>, key: Addr, i: nat)
    requires InOrder(start, calls) && KeepsRate(lim) && i < |calls|
    ensures WithinRate(lim, start, calls, key, i)
  {
    hide InOrder, WithinRate;
  }

  lemma WithinFits(lim: Limits, start: real, calls: seq<Call>, c: Call, i: nat)
    requires i < |calls| && WithinRate(lim, start, calls + [c], c.key, i)
    requires Accepted(lim, start, calls + [c], c.key, i) == Accepted(lim, start, calls, c.key, i) + 1
    ensures Fits(lim, start, calls, c, i)
  {
    hide Accepted;
    var all := calls + [c];
    assert all[i] == calls[i] && all[|all| - 1] == c;
  }

  lemma AcceptedHasBurst(lim: Limits, start: real, calls: seq<Call>, c: Call)
    requires InOrder(start, calls + [c]) && KeepsRate(lim)
    requires Attempt(lim, Run(lim, start, calls), c.key, c.now).1
    ensures lim.burst >= 1
  {
    AcceptedSnoc(lim, start, calls, c, c.key, |calls|);
    hide Accepted, Attempt, InOrder;
    assert WithinRate(lim, start, calls + [c], c.key, |calls|);
  }

  // ----- clients by address -----

  /** IPv6 addresses of one /64 are one client, whatever their interface and zone; other addresses
      are one client each, and so are those that cannot be told. */
  predicate SameClient(a: Addr, b: Addr) {
    match (a, b)
    case (V6(high, _, _), V6(high', _, _)) => high == high'
    case (V4(bits), V4(bits')) => bits == bits'
    case (Zero, Zero) => true
    case _ => false
  }

  lemma KeyIff(a: Addr, b: Addr)
    ensures Key(a) == Key(b) <==> SameClient(a, b)
  {
  }

  datatype Visit = Visit(from: Addr, now: real)

  /** The calls that these visits make on the buckets. */
  function Keyed(visits: seq<Visit>): seq<Call> {
    seq(|visits|, i requires 0 <= i < |visits| => Call(Key(visits[i].from), visits[i].now))
  }

  /** The limiter's state after these visits. */
  function After(lim: Limits, start: real, visits: seq<Visit>): State {
    if visits == [] then State(map[], start) else
      var v := visits[|visits| - 1];
      Attempt(lim, After(lim, start, visits[..|visits| - 1]), Key(v.from), v.now).0
  }

  /** Of the visits from the i-th on, those from this client that were let through. */
  function LetThrough(lim: Limits, start: real, visits: seq<Visit>, a: Addr, i: nat): nat {
    if |visits| <= i then 0 else
      var prior, v := visits[..|visits| - 1], visits[|visits| - 1];
      LetThrough(lim, start, prior, a, i) +
      if SameClient(v.from, a) && Attempt(lim, After(lim, start, prior), Key(v.from), v.now).1 then 1 else 0
  }

  lemma {:induction false} VisitsAreCalls(lim: Limits, start: real, visits: seq<Visit>, a: Addr, i: nat)
    ensures After(lim, start, visits) == Run(lim, start, Keyed(visits))
    ensures LetThrough(lim, start, visits, a, i) == Accepted(lim, start, Keyed(visits), Key(a), i)
  {
    hide Attempt;
    if visits != [] {
      var prior, v := visits[..|visits| - 1], visits[|visits| - 1];
      VisitsAreCalls(lim, start, prior, a, i);
      assert Keyed(visits)[..|visits| - 1] == Keyed(prior);
      KeyIff(v.from, a);
    }
  }

  /** In any window the addresses of one client together get at most the burst, the refill, and
      for each whole idle time the bonus of a bucket made anew. */
  lemma ClientBound(lim: Limits, start: real, visits: seq<Visit>, a: Addr, i: nat, window: real)
    requires Valid(lim) && InOrder(start, Keyed(visits)) && i < |visits|
    requires visits[|visits| - 1].now - visits[i].now <= window
    ensures LetThrough(lim, start, visits, a, i) as real <=
      lim.burst as real + lim.rate * window + Bonus(lim) * (window / lim.idle).Floor as real
  {
    VisitsAreCalls(lim, start, visits, a, i);
    WindowBound(lim, start, Keyed(visits), Key(a), i, window);
  }

  /** A visit is let through if in no window since an earlier visit of the same client it would be
      too many, however often other clients come. */
  lemma ClientServed(lim: Limits, start: real, visits: seq<Visit>, v: Visit)
    requires Valid(lim) && lim.burst >= 1 && InOrder(start, Keyed(visits + [v]))
    requires forall i :: 0 <= i < |visits| && SameClient(visits[i].from, v.from) ==>
      RoomFor(lim, LetThrough(lim, start, visits, v.from, i), visits[i].now, v.now)
    ensures LetThrough(lim, start, visits + [v], v.from, |visits|) == 1
  {
    var calls, c := Keyed(visits), Call(Key(v.from), v.now);
    assert Keyed(visits + [v]) == calls + [c] && |calls| == |visits|;
    assert forall i :: 0 <= i < |visits| ==> calls[i] == Call(Key(visits[i].from), visits[i].now);
    hide *;
    forall i | 0 <= i < |calls| && calls[i].key == c.key ensures Fits(lim, start, calls, c, i) {
      VisitFits(lim, start, visits, v, i);
    }
    AllFit(lim, start, calls, c);
    EntitledIsAccepted(lim, start, calls, c);
    VisitsAreCalls(lim, start, visits + [v], v.from, |visits|);
    AcceptedSnoc(lim, start, calls, c, c.key, |visits|);
  }

  lemma AllFit(lim: Limits, start: real, calls: seq<Call>, c: Call)
    requires lim.burst >= 1
    requires forall i :: 0 <= i < |calls| && calls[i].key == c.key ==> Fits(lim, start, calls, c, i)
    ensures Entitled(lim, start, calls, c)
  {
    hide Fits;
  }

  lemma VisitFits(lim: Limits, start: real, visits: seq<Visit>, v: Visit, i: nat)
    requires i < |visits| && Key(visits[i].from) == Key(v.from)
    requires SameClient(visits[i].from, v.from) ==>
      RoomFor(lim, LetThrough(lim, start, visits, v.from, i), visits[i].now, v.now)
    ensures Fits(lim, start, Keyed(visits), Call(Key(v.from), v.now), i)
  {
    KeyIff(visits[i].from, v.from);
    VisitsAreCalls(lim, start, visits, v.from, i);
    hide Accepted, LetThrough, SameClient, Key, RoomFor;
  }
}
