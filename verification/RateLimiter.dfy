/** Token buckets per client address, with a sweep of idle ones. */
module RateLimiter {
  datatype Addr = Zero | V4(bits: nat) | V6(high: nat, low: nat, zone: string)

  /** IPv6 clients share a bucket per /64; unusable addresses share one. */
  function Key(a: Addr): Addr {
    if a.V6? then V6(a.high, 0, "") else a
  }

  /** Refill per second, capacity, and the idle time after which a sweep drops a bucket. */
  datatype Limits = Limits(rate: real, burst: nat, idle: real)

  const LOGIN_LIMITS := Limits(1.0 / 120.0, 10, 900.0)

  predicate Valid(lim: Limits) {
    lim.rate >= 0.0 && lim.idle > 0.0
  }

  /** Tokens as of the last accepted attempt. */
  datatype Bucket = Bucket(tokens: real, last: real, lastSeen: real)

  datatype State = State(buckets: map<Addr, Bucket>, lastSweep: real)

  function Least(a: real, b: real): real {
    if a < b then a else b
  }

  function Full(lim: Limits, now: real): Bucket {
    Bucket(lim.burst as real, now, now)
  }

  function Refill(lim: Limits, span: real): real {
    lim.rate * span
  }

  /** Tokens at a later time. A clock that went back refills nothing. */
  function Available(lim: Limits, b: Bucket, now: real): real {
    Level(lim, b.tokens, b.last, now)
  }

  function Level(lim: Limits, tokens: real, last: real, now: real): real {
    Least(lim.burst as real, if now < last then tokens else tokens + Refill(lim, now - last))
  }

  /** An attempt takes one token or, refused, leaves tokens and refill time alone. */
  function Take(lim: Limits, b: Bucket, now: real): (Bucket, bool) {
    if Available(lim, b, now) >= 1.0 then (Bucket(Available(lim, b, now) - 1.0, now, now), true)
    else (b.(lastSeen := now), false)
  }

  function Swept(lim: Limits, st: State, now: real): State {
    if now - st.lastSweep > lim.idle
    then State(map k | k in st.buckets && !(now - st.buckets[k].lastSeen > lim.idle) :: st.buckets[k], now)
    else st
  }

  function BucketOf(lim: Limits, st: State, key: Addr, now: real): Bucket {
    if key in st.buckets then st.buckets[key] else Full(lim, now)
  }

  function Attempt(lim: Limits, st: State, key: Addr, now: real): (State, bool) {
    var swept := Swept(lim, st, now);
    var taken := Take(lim, BucketOf(lim, swept, key, now), now);
    (swept.(buckets := swept.buckets[key := taken.0]), taken.1)
  }

  class IpRateLimiter {
    const lim: Limits
    var buckets: map<Addr, Bucket>
    var lastSweep: real

    function View(): State
      reads this
    {
      State(buckets, lastSweep)
    }

    constructor (lim: Limits, now: real)
      ensures this.lim == lim && View() == State(map[], now)
    {
      this.lim, buckets, lastSweep := lim, map[], now;
    }

    method Sweep(now: real)
      modifies this
      ensures View() == Swept(lim, old(View()), now)
    {
      if now - lastSweep > lim.idle {
        var left := buckets.Keys;
        while left != {}
          invariant left <= buckets.Keys <= old(buckets).Keys && lastSweep == old(lastSweep)
          invariant forall k :: k in old(buckets) ==>
            (k in buckets <==> k in left || !(now - old(buckets)[k].lastSeen > lim.idle))
          invariant forall k :: k in buckets ==> buckets[k] == old(buckets)[k]
          decreases left
        {
          var k :| k in left;
          if now - buckets[k].lastSeen > lim.idle {
            buckets := buckets - {k};
          }
          left := left - {k};
        }
        lastSweep := now;
      }
    }

    method Allow(addr: Addr, now: real) returns (ok: bool)
      modifies this
      ensures (View(), ok) == Attempt(lim, old(View()), Key(addr), now)
    {
      var key := addr;
      if addr.V6? {
        key := V6(addr.high, 0, "");
      }
      Sweep(now);
      ghost var swept := View();
      if key !in buckets {
        buckets := buckets[key := Bucket(lim.burst as real, now, now)];
      }
      var b := buckets[key];
      ghost var found := b;
      assert found == BucketOf(lim, swept, key, now);
      var tokens := Available(lim, b, now);
      b := b.(lastSeen := now);
      ok := tokens >= 1.0;
      if ok {
        b := b.(tokens := tokens - 1.0, last := now);
      }
      assert (b, ok) == Take(lim, found, now);
      buckets := buckets[key := b];
      assert buckets == swept.buckets[key := b];
    }
  }

  // ----- every run of attempts -----

  datatype Call = Call(key: Addr, now: real)

  ghost predicate InOrder(start: real, calls: seq<Call>) {
    && (forall i :: 0 <= i < |calls| ==> start <= calls[i].now)
    && (forall i, j :: 0 <= i < j < |calls| ==> calls[i].now <= calls[j].now)
  }

  function Run(lim: Limits, start: real, calls: seq<Call>): State {
    if calls == [] then State(map[], start) else
      var c := calls[|calls| - 1];
      Attempt(lim, Run(lim, start, calls[..|calls| - 1]), c.key, c.now).0
  }

  /** Accepted attempts of a key among the calls from the i-th on. */
  function Accepted(lim: Limits, start: real, calls: seq<Call>, key: Addr, i: nat): nat {
    if |calls| <= i then 0 else
      var prior, c := calls[..|calls| - 1], calls[|calls| - 1];
      Accepted(lim, start, prior, key, i) +
      if c.key == key && Attempt(lim, Run(lim, start, prior), key, c.now).1 then 1 else 0
  }

  /** Buckets are as of some earlier time, within capacity, and idle at most one limit longer
      than the last sweep. */
  ghost predicate Sane(lim: Limits, st: State, now: real) {
    && st.lastSweep <= now && now - st.lastSweep <= lim.idle
    && forall k :: k in st.buckets ==>
      var b := st.buckets[k];
      && 0.0 <= b.tokens <= lim.burst as real && b.last <= b.lastSeen <= now
      && st.lastSweep - b.lastSeen <= lim.idle
  }

  lemma ProductNonneg(a: real, b: real)
    requires a >= 0.0 && b >= 0.0
    ensures a * b >= 0.0
  {
  }

  /** Refill is additive and rises with the time. */
  lemma RefillSplits(lim: Limits, t0: real, s: real, now: real)
    ensures Refill(lim, now - t0) == Refill(lim, now - s) + Refill(lim, s - t0)
  {
    Distribute(lim.rate, t0, s, now);
  }

  lemma RefillRises(lim: Limits, span: real, longer: real)
    requires Valid(lim) && span <= longer
    ensures Refill(lim, span) <= Refill(lim, longer)
    ensures Refill(lim, 0.0) == 0.0
  {
    Monotone(lim.rate, span, longer);
  }

  lemma Distribute(r: real, a: real, b: real, c: real)
    ensures r * (c - a) == r * (c - b) + r * (b - a)
  {
  }

  lemma Monotone(r: real, a: real, b: real)
    requires r >= 0.0 && a <= b
    ensures r * a <= r * b
  {
    ProductNonneg(r, b - a);
    assert r * b == r * a + r * (b - a);
  }

  lemma AvailableInRange(lim: Limits, b: Bucket, now: real)
    requires Valid(lim) && 0.0 <= b.tokens <= lim.burst as real && b.last <= now
    ensures 0.0 <= Available(lim, b, now) <= lim.burst as real
  {
    RefillRises(lim, 0.0, now - b.last);
    hide Refill;
  }

  lemma TakeStaysSane(lim: Limits, b: Bucket, now: real)
    requires Valid(lim) && 0.0 <= b.tokens <= lim.burst as real && b.last <= now
    ensures var b' := Take(lim, b, now).0;
      0.0 <= b'.tokens <= lim.burst as real && b'.last <= b'.lastSeen == now
  {
    hide Available;
    AvailableInRange(lim, b, now);
  }

  lemma AttemptStaysSane(lim: Limits, st: State, key: Addr, before: real, now: real)
    requires Valid(lim) && before <= now
    requires Sane(lim, st, before)
    ensures Sane(lim, Attempt(lim, st, key, now).0, now)
  {
    var swept := Swept(lim, st, now);
    TakeStaysSane(lim, BucketOf(lim, swept, key, now), now);
  }

  lemma {:induction false} RunStaysSane(lim: Limits, start: real, calls: seq<Call>)
    requires Valid(lim) && InOrder(start, calls)
    ensures Sane(lim, Run(lim, start, calls), if calls == [] then start else calls[|calls| - 1].now)
  {
    if calls != [] {
      var prior, c := calls[..|calls| - 1], calls[|calls| - 1];
      RunStaysSane(lim, start, prior);
      AttemptStaysSane(lim, Run(lim, start, prior), c.key,
        if prior == [] then start else prior[|prior| - 1].now, c.now);
    }
  }

  /** A sweep takes a bucket exactly if more than the idle limit has passed since the last sweep
      and since the bucket was used, and leaves the others as they are. */
  lemma SweepDropsIff(lim: Limits, st: State, key: Addr, now: real)
    requires key in st.buckets
    ensures var idle := now - st.lastSweep > lim.idle && now - st.buckets[key].lastSeen > lim.idle;
      && (key in Swept(lim, st, now).buckets <==> !idle)
      && (!idle ==> Swept(lim, st, now).buckets[key] == st.buckets[key])
  {
  }

  /** After every call each kept bucket was used within the last two idle limits. */
  lemma KeptAreRecent(lim: Limits, start: real, calls: seq<Call>, key: Addr)
    requires Valid(lim) && InOrder(start, calls) && calls != []
    requires key in Run(lim, start, calls).buckets
    ensures calls[|calls| - 1].now - Run(lim, start, calls).buckets[key].lastSeen <= 2.0 * lim.idle
  {
    RunStaysSane(lim, start, calls);
  }

  // ----- how many attempts one client gets -----

  /** What a bucket made anew has over one that refilled through the idle time. */
  function Bonus(lim: Limits): real {
    lim.burst as real - Least(lim.burst as real, lim.rate * lim.idle)
  }

  function Owed(lim: Limits, jumps: nat): real {
    jumps as real * Bonus(lim)
  }

  function Idled(lim: Limits, jumps: nat): real {
    jumps as real * lim.idle
  }

  /** n attempts accepted from t0 on, the last one seen at s, after `jumps` buckets made anew,
      with `credit` tokens left then. */
  ghost predicate Tracked(lim: Limits, st: State, key: Addr, t0: real, now: real, n: nat, s: real, jumps: nat,
      credit: real) {
    && t0 <= s <= now && credit >= 0.0
    && n as real + credit <= lim.burst as real + Refill(lim, s - t0) + Owed(lim, jumps)
    && Idled(lim, jumps) <= s - t0
    && (key in st.buckets ==> st.buckets[key].lastSeen == s && Available(lim, st.buckets[key], s) <= credit)
    && (key !in st.buckets ==> now - s > lim.idle)
  }

  lemma NoWait(lim: Limits, tokens: real, now: real)
    ensures Available(lim, Bucket(tokens, now, now), now) == Least(lim.burst as real, tokens)
  {
    assert Refill(lim, 0.0) == 0.0;
    hide Refill;
    assert now - now == 0.0;
  }

  lemma SeenDoesNotRefill(lim: Limits, b: Bucket, now: real)
    ensures Available(lim, b.(lastSeen := now), now) == Available(lim, b, now)
  {
    hide Level;
  }

  /** Taking from a bucket moves a token from the credit to the count. */
  lemma TakeBalances(lim: Limits, b: Bucket, now: real, n: nat)
    requires Valid(lim) && 0.0 <= b.tokens <= lim.burst as real && b.last <= now
    ensures var (b', ok) := Take(lim, b, now);
      && b'.lastSeen == now && Available(lim, b', now) >= 0.0
      && (n + if ok then 1 else 0) as real + Available(lim, b', now) == n as real + Available(lim, b, now)
  {
    hide Available;
    AvailableInRange(lim, b, now);
    NoWait(lim, Available(lim, b, now) - 1.0, now);
    SeenDoesNotRefill(lim, b, now);
  }

  /** A call that finds the key's bucket: the time since the last call refills it. */
  lemma FoundBalance(lim: Limits, b: Bucket, t0: real, now: real, s: real)
    requires Valid(lim) && b.last <= s <= now
    ensures Available(lim, b, now) <= Available(lim, b, s) + Refill(lim, now - t0) - Refill(lim, s - t0)
  {
    RefillSplits(lim, b.last, s, now);
    RefillSplits(lim, t0, s, now);
    RefillRises(lim, 0.0, now - s);
    hide Refill;
  }

  lemma OneMore(a: real, x: real)
    ensures (a + 1.0) * x == a * x + x
    ensures 0.0 * x == 0.0
  {
  }

  lemma JumpAdds(lim: Limits, jumps: nat)
    ensures Owed(lim, jumps + 1) == Owed(lim, jumps) + Bonus(lim)
    ensures Idled(lim, jumps + 1) == Idled(lim, jumps) + lim.idle
    ensures Owed(lim, 0) == 0.0 == Idled(lim, 0)
  {
    var bonus := Bonus(lim);
    hide Bonus;
    OneMore(jumps as real, bonus);
    OneMore(jumps as real, lim.idle);
    assert (jumps + 1) as real == jumps as real + 1.0;
  }

  lemma BonusCovers(lim: Limits)
    ensures lim.burst as real <= Refill(lim, lim.idle) + Bonus(lim)
  {
  }

  /** A call that finds it swept: a full bucket has at most the bonus over what would have refilled. */
  lemma AnewBalance(lim: Limits, t0: real, now: real, s: real, jumps: nat)
    requires Valid(lim) && now - s > lim.idle
    ensures lim.burst as real <= Refill(lim, now - t0) - Refill(lim, s - t0) + Owed(lim, jumps + 1) - Owed(lim, jumps)
    ensures Idled(lim, jumps + 1) == Idled(lim, jumps) + lim.idle
  {
    hide Refill, Owed, Idled, Bonus;
    RefillSplits(lim, t0, s, now);
    RefillRises(lim, lim.idle, now - s);
    JumpAdds(lim, jumps);
    BonusCovers(lim);
  }

  /** One more call of the key. */
  lemma OwnKeyTracked(lim: Limits, st: State, key: Addr, t0: real, before: real, now: real, n: nat, s: real,
      jumps: nat, credit: real)
    returns (jumps': nat)
    requires Valid(lim) && Sane(lim, st, before) && before <= now
    requires Tracked(lim, st, key, t0, before, n, s, jumps, credit)
    ensures var (st', ok) := Attempt(lim, st, key, now);
      Tracked(lim, st', key, t0, now, n + if ok then 1 else 0, now, jumps', Available(lim, st'.buckets[key], now))
  {
    hide Available, Take, Refill, Owed, Idled;
    var swept := Swept(lim, st, now);
    var b := BucketOf(lim, swept, key, now);
    TakeBalances(lim, b, now, n);
    if key in swept.buckets {
      jumps' := jumps;
      FoundBalance(lim, b, t0, now, s);
    } else {
      jumps' := jumps + 1;
      NoWait(lim, lim.burst as real, now);
      AnewBalance(lim, t0, now, s, jumps);
    }
  }

  /** The first call of the key in the window. */
  lemma FirstTracked(lim: Limits, st: State, key: Addr, t0: real, before: real, now: real)
    requires Valid(lim) && Sane(lim, st, before) && before <= now && t0 <= now
    ensures var (st', ok) := Attempt(lim, st, key, now);
      Tracked(lim, st', key, t0, now, if ok then 1 else 0, now, 0, Available(lim, st'.buckets[key], now))
  {
    hide Available, Take, Refill, Owed, Idled;
    var b := BucketOf(lim, Swept(lim, st, now), key, now);
    TakeBalances(lim, b, now, 0);
    RefillRises(lim, 0.0, now - t0);
    JumpAdds(lim, 0);
    AvailableInRange(lim, b, now);
  }

  lemma OtherKeyTracked(lim: Limits, st: State, other: Addr, key: Addr, t0: real, before: real, now: real,
    n: nat, s: real, jumps: nat, credit: real)
    requires other != key && before <= now && Tracked(lim, st, key, t0, before, n, s, jumps, credit)
    ensures Tracked(lim, Attempt(lim, st, other, now).0, key, t0, now, n, s, jumps, credit)
  {
  }

  lemma {:induction false} Track(lim: Limits, start: real, calls: seq<Call>, key: Addr, i: nat)
    returns (seen: bool, s: real, jumps: nat, credit: real)
    requires Valid(lim) && InOrder(start, calls) && i < |calls|
    ensures !seen ==> Accepted(lim, start, calls, key, i) == 0
    ensures seen ==> Tracked(lim, Run(lim, start, calls), key, calls[i].now, calls[|calls| - 1].now,
      Accepted(lim, start, calls, key, i), s, jumps, credit)
  {
    hide Tracked, Sane, Attempt;
    var prior, c := calls[..|calls| - 1], calls[|calls| - 1];
    var st := Run(lim, start, prior);
    var before := if prior == [] then start else prior[|prior| - 1].now;
    RunStaysSane(lim, start, prior);
    seen, s, jumps, credit := false, 0.0, 0, 0.0;
    if i < |prior| {
      seen, s, jumps, credit := Track(lim, start, prior, key, i);
    }
    var n := Accepted(lim, start, prior, key, i);
    if c.key != key {
      if seen {
        OtherKeyTracked(lim, st, c.key, key, calls[i].now, before, c.now, n, s, jumps, credit);
      }
    } else {
      if seen {
        jumps := OwnKeyTracked(lim, st, key, calls[i].now, before, c.now, n, s, jumps, credit);
      } else {
        jumps := 0;
        FirstTracked(lim, st, key, calls[i].now, before, c.now);
      }
      AttemptKeeps(lim, st, key, c.now);
      seen, s, credit := true, c.now, Available(lim, Attempt(lim, st, key, c.now).0.buckets[key], c.now);
    }
  }

  lemma AttemptKeeps(lim: Limits, st: State, key: Addr, now: real)
    ensures key in Attempt(lim, st, key, now).0.buckets
  {
  }

  lemma Cancel(a: real, b: real, c: real)
    requires c > 0.0 && a * c <= b * c
    ensures a <= b
  {
    assert (b - a) * c >= 0.0;
  }

  lemma Quotient(a: real, c: real)
    requires c > 0.0
    ensures (a / c) * c == a
  {
  }

  lemma CountJumps(jumps: nat, idle: real, window: real)
    requires idle > 0.0 && jumps as real * idle <= window
    ensures jumps <= (window / idle).Floor
  {
    var q := window / idle;
    Quotient(window, idle);
    Cancel(jumps as real, q, idle);
  }

  /** In any window one client gets at most the burst, the refill over the window, and for each
      whole idle time in the window what a bucket made anew has over one that refilled. */
  lemma WindowBound(lim: Limits, start: real, calls: seq<Call>, key: Addr, i: nat, window: real)
    requires Valid(lim) && InOrder(start, calls) && i < |calls|
    requires calls[|calls| - 1].now - calls[i].now <= window
    ensures Accepted(lim, start, calls, key, i) as real <=
      lim.burst as real + lim.rate * window + Bonus(lim) * (window / lim.idle).Floor as real
  {
    var seen, s, jumps, credit := Track(lim, start, calls, key, i);
    hide Accepted, Run, Available;
    if seen {
      Sum(lim, Accepted(lim, start, calls, key, i), credit, s - calls[i].now, window, jumps);
    } else {
      Sum(lim, 0, 0.0, 0.0, window, 0);
    }
  }

  lemma OwedFits(lim: Limits, jumps: nat, window: real)
    requires Valid(lim) && Idled(lim, jumps) <= window
    ensures Owed(lim, jumps) <= Bonus(lim) * (window / lim.idle).Floor as real
  {
    BonusNonneg(lim);
    CountJumps(jumps, lim.idle, window);
    OwedRises(lim, Bonus(lim), jumps, (window / lim.idle).Floor);
  }

  lemma OwedRises(lim: Limits, bonus: real, jumps: nat, most: int)
    requires bonus == Bonus(lim) >= 0.0 && jumps <= most
    ensures Owed(lim, jumps) <= bonus * most as real
  {
    hide Bonus;
    Monotone(bonus, jumps as real, most as real);
  }

  lemma Sum(lim: Limits, n: nat, credit: real, span: real, window: real, jumps: nat)
    requires Valid(lim) && credit >= 0.0 && span <= window
    requires n as real + credit <= lim.burst as real + Refill(lim, span) + Owed(lim, jumps)
    requires Idled(lim, jumps) <= span
    ensures n as real <= lim.burst as real + lim.rate * window + Bonus(lim) * (window / lim.idle).Floor as real
  {
    OwedFits(lim, jumps, window);
    RefillRises(lim, span, window);
    assert Refill(lim, window) == lim.rate * window;
    hide Refill, Owed, Idled, Bonus;
  }

  lemma BonusNonneg(lim: Limits)
    ensures Bonus(lim) >= 0.0
  {
  }

  /** The login limiter: ten at once, thirty an hour, and five halves more for each quarter of an
      hour, so over a long time up to forty an hour. */
  lemma LoginBound(start: real, calls: seq<Call>, key: Addr, i: nat, hours: nat)
    requires InOrder(start, calls) && i < |calls|
    requires calls[|calls| - 1].now - calls[i].now <= 3600.0 * hours as real
    ensures Accepted(LOGIN_LIMITS, start, calls, key, i) <= 10 + 40 * hours
  {
    var window := 3600.0 * hours as real;
    WindowBound(LOGIN_LIMITS, start, calls, key, i, window);
    assert Bonus(LOGIN_LIMITS) == 2.5;
    assert window / 900.0 == (4 * hours) as real;
  }

  /** The bonus is real: an idle bucket that a sweep removes comes back full, whatever it held. */
  lemma SweepRefills(lim: Limits, st: State, key: Addr, now: real)
    requires Valid(lim) && lim.burst >= 1 && key in st.buckets
    requires now - st.lastSweep > lim.idle && now - st.buckets[key].lastSeen > lim.idle
    ensures Attempt(lim, st, key, now).1
    ensures Attempt(lim, st, key, now).0.buckets[key].tokens == lim.burst as real - 1.0
  {
    NoWait(lim, lim.burst as real, now);
  }

  // ----- the bound is used -----

  /** n calls of a key at one time. */
  function Burst(key: Addr, t: real, n: nat): seq<Call> {
    if n == 0 then [] else Burst(key, t, n - 1) + [Call(key, t)]
  }

  /** A full burst at each of these times. */
  function Bursts(lim: Limits, key: Addr, times: seq<real>): seq<Call> {
    if times == [] then [] else
      Bursts(lim, key, times[..|times| - 1]) + Burst(key, times[|times| - 1], lim.burst)
  }

  /** Each time is more than the idle time after the one before. */
  ghost predicate FarApart(lim: Limits, start: real, times: seq<real>) {
    && (forall i :: 0 <= i < |times| ==> start <= times[i])
    && forall i :: 0 < i < |times| ==> times[i] - times[i - 1] > lim.idle
  }

  /** The key's bucket after n accepted calls at time t. */
  ghost predicate Drained(lim: Limits, st: State, key: Addr, t: real, n: nat) {
    && key in st.buckets && st.buckets[key] == Bucket(lim.burst as real - n as real, t, t)
    && st.lastSweep <= t && t - st.lastSweep <= lim.idle
  }

  /** The key has no bucket once a call at time t has swept. */
  ghost predicate Anew(lim: Limits, st: State, key: Addr, t: real) {
    key !in Swept(lim, st, t).buckets && st.lastSweep <= t
  }

  lemma FirstOfBurst(lim: Limits, st: State, key: Addr, t: real)
    requires Valid(lim) && lim.burst > 0 && Anew(lim, st, key, t)
    ensures Attempt(lim, st, key, t).1 && Drained(lim, Attempt(lim, st, key, t).0, key, t, 1)
  {
    NoWait(lim, lim.burst as real, t);
  }

  lemma NextOfBurst(lim: Limits, st: State, key: Addr, t: real, n: nat)
    requires Valid(lim) && n < lim.burst && Drained(lim, st, key, t, n)
    ensures Attempt(lim, st, key, t).1 && Drained(lim, Attempt(lim, st, key, t).0, key, t, n + 1)
  {
    NoWait(lim, lim.burst as real - n as real, t);
  }

  /** One more call after these. */
  lemma AcceptedSnoc(lim: Limits, start: real, calls: seq<Call>, c: Call, key: Addr, i: nat)
    requires i <= |calls|
    ensures Accepted(lim, start, calls + [c], key, i) == Accepted(lim, start, calls, key, i) +
      if c.key == key && Attempt(lim, Run(lim, start, calls), key, c.now).1 then 1 else 0
    ensures Accepted(lim, start, calls, key, |calls|) == 0
    ensures Run(lim, start, calls + [c]) == Attempt(lim, Run(lim, start, calls), c.key, c.now).0
  {
    assert (calls + [c])[..|calls|] == calls;
  }

  lemma {:induction false} BurstAccepted(lim: Limits, start: real, calls: seq<Call>, key: Addr, t: real, n: nat)
    requires Valid(lim) && 0 < n <= lim.burst && Anew(lim, Run(lim, start, calls), key, t)
    ensures Drained(lim, Run(lim, start, calls + Burst(key, t, n)), key, t, n)
    ensures Accepted(lim, start, calls + Burst(key, t, n), key, 0) == Accepted(lim, start, calls, key, 0) + n
  {
    hide Drained, Anew, Attempt, Run, Accepted;
    var prior := calls + Burst(key, t, n - 1);
    assert calls + Burst(key, t, n) == prior + [Call(key, t)];
    AcceptedSnoc(lim, start, prior, Call(key, t), key, 0);
    if n == 1 {
      assert prior == calls;
      FirstOfBurst(lim, Run(lim, start, prior), key, t);
    } else {
      BurstAccepted(lim, start, calls, key, t, n - 1);
      NextOfBurst(lim, Run(lim, start, prior), key, t, n - 1);
    }
  }

  lemma {:induction false} BurstsAre(lim: Limits, start: real, key: Addr, times: seq<real>)
    requires Valid(lim) && FarApart(lim, start, times)
    ensures InOrder(start, Bursts(lim, key, times))
    ensures forall i :: 0 <= i < |Bursts(lim, key, times)| ==> Bursts(lim, key, times)[i].now <= times[|times| - 1]
  {
    if times != [] {
      var t := times[|times| - 1];
      BurstsAre(lim, start, key, times[..|times| - 1]);
      BurstIs(key, t, lim.burst);
    }
  }

  lemma {:induction false} BurstIs(key: Addr, t: real, n: nat)
    ensures |Burst(key, t, n)| == n && forall i :: 0 <= i < n ==> Burst(key, t, n)[i] == Call(key, t)
  {
    if n > 0 {
      BurstIs(key, t, n - 1);
    }
  }

  /** Any number of full bursts, each more than the idle time after the last, are all accepted:
      the bucket is swept each time and comes back full. */
  lemma {:induction false} BurstsAccepted(lim: Limits, start: real, key: Addr, times: seq<real>)
    requires Valid(lim) && lim.burst > 0 && FarApart(lim, start, times)
    ensures Accepted(lim, start, Bursts(lim, key, times), key, 0) == |times| * lim.burst
    ensures times != [] ==> Drained(lim, Run(lim, start, Bursts(lim, key, times)), key, times[|times| - 1], lim.burst)
  {
    hide Drained, Anew, Valid;
    if times != [] {
      var prior, t := times[..|times| - 1], times[|times| - 1];
      var st := Run(lim, start, Bursts(lim, key, prior));
      BurstsAccepted(lim, start, key, prior);
      if prior == [] {
        NeverCalled(lim, start, key, t);
      } else {
        DrainedThenAnew(lim, st, key, prior[|prior| - 1], t, lim.burst);
      }
      BurstAccepted(lim, start, Bursts(lim, key, prior), key, t, lim.burst);
      OneTimesMore(|prior|, lim.burst);
    } else {
      assert |times| * lim.burst == 0;
    }
  }

  lemma NeverCalled(lim: Limits, start: real, key: Addr, t: real)
    requires start <= t
    ensures Anew(lim, Run(lim, start, []), key, t)
  {
  }

  lemma DrainedThenAnew(lim: Limits, st: State, key: Addr, before: real, t: real, n: nat)
    requires Valid(lim) && Drained(lim, st, key, before, n) && t - before > lim.idle
    ensures Anew(lim, st, key, t)
  {
  }

  lemma OneTimesMore(n: nat, d: nat)
    ensures (n + 1) * d == n * d + d
  {
  }

  /** k bursts at the login limits, 901 seconds apart: ten accepted each time, which for two and
      more is over what a burst of ten and thirty an hour would allow. */
  lemma LoginBursts(start: real, key: Addr, k: nat)
    requires k >= 2
    ensures var times := seq(k, i requires 0 <= i < k => start + 901.0 * i as real);
      && FarApart(LOGIN_LIMITS, start, times) && times[k - 1] - times[0] == 901.0 * (k - 1) as real
      && InOrder(start, Bursts(LOGIN_LIMITS, key, times))
      && Accepted(LOGIN_LIMITS, start, Bursts(LOGIN_LIMITS, key, times), key, 0) == 10 * k
      && (10 * k) as real > 10.0 + LOGIN_LIMITS.rate * (times[k - 1] - times[0])
  {
    var times := seq(k, i requires 0 <= i < k => start + 901.0 * i as real);
    forall i | 0 < i < k ensures times[i] - times[i - 1] > LOGIN_LIMITS.idle {
      assert i as real == (i - 1) as real + 1.0;
    }
    BurstsAre(LOGIN_LIMITS, start, key, times);
    BurstsAccepted(LOGIN_LIMITS, start, key, times);
    assert (10 * k) as real == 10.0 + 10.0 * (k - 1) as real;
  }

  // ----- exactly which limits keep their rate -----

  /** In no window, of no traffic, does a client get more than the burst and the refill. */
  ghost predicate KeepsRate(lim: Limits) {
    forall start, calls: seq<Call>, key, i: nat :: InOrder(start, calls) && i < |calls| ==>
      WithinRate(lim, start, calls, key, i)
  }

  ghost predicate WithinRate(lim: Limits, start: real, calls: seq<Call>, key: Addr, i: nat)
    requires i < |calls|
  {
    Accepted(lim, start, calls, key, i) as real
      <= lim.burst as real + lim.rate * (calls[|calls| - 1].now - calls[i].now)
  }

  /** A time longer than the idle time in which less than the burst comes back. */
  lemma SlowRefill(lim: Limits) returns (d: real)
    requires Valid(lim) && lim.rate * lim.idle < lim.burst as real
    ensures d > lim.idle && lim.rate * d < lim.burst as real
  {
    if lim.rate == 0.0 {
      d := lim.idle + 1.0;
    } else {
      var refilled := lim.burst as real / lim.rate;
      Quotient(lim.burst as real, lim.rate);
      if refilled <= lim.idle {
        Monotone(lim.rate, refilled, lim.idle);
        assert false;
      }
      d := (lim.idle + refilled) / 2.0;
      Halfway(lim.rate, lim.idle, refilled, d);
    }
  }

  lemma Halfway(r: real, a: real, b: real, d: real)
    requires r * a < r * b && d == (a + b) / 2.0
    ensures r * d < r * b
  {
    assert r * d == (r * a + r * b) / 2.0;
  }

  /** Two bursts of one client that are both accepted, in a window too short to refill. */
  lemma TwoBursts(lim: Limits, key: Addr) returns (calls: seq<Call>)
    requires Valid(lim) && lim.burst > 0 && lim.rate * lim.idle < lim.burst as real
    ensures InOrder(0.0, calls) && calls != [] && !WithinRate(lim, 0.0, calls, key, 0)
  {
    var d := SlowRefill(lim);
    var times := [0.0, d];
    calls := Bursts(lim, key, times);
    BurstsAre(lim, 0.0, key, times);
    BurstsAccepted(lim, 0.0, key, times);
    BurstEnds(lim, key, d);
    hide Bursts, InOrder, Accepted, Valid, FarApart;
    TooMany(lim, 0.0, calls, key, lim.burst, d);
  }

  lemma TooMany(lim: Limits, start: real, calls: seq<Call>, key: Addr, burst: nat, d: real)
    requires calls != [] && calls[|calls| - 1].now - calls[0].now == d
    requires Accepted(lim, start, calls, key, 0) == 2 * burst && burst == lim.burst && lim.rate * d < burst as real
    ensures !WithinRate(lim, start, calls, key, 0)
  {
    hide Accepted;
    assert (2 * burst) as real == burst as real + burst as real;
  }

  lemma BurstEnds(lim: Limits, key: Addr, d: real)
    requires lim.burst > 0
    ensures var calls := Bursts(lim, key, [0.0, d]);
      |calls| == 2 * lim.burst && calls[0].now == 0.0 && calls[|calls| - 1].now == d
  {
    assert [0.0, d][..1] == [0.0] && [0.0][..0] == [];
    assert Bursts(lim, key, [0.0]) == [] + Burst(key, 0.0, lim.burst);
    BurstIs(key, 0.0, lim.burst);
    BurstIs(key, d, lim.burst);
  }

  lemma RefillsFirst(lim: Limits, start: real, calls: seq<Call>, key: Addr, i: nat)
    requires Valid(lim) && lim.rate * lim.idle >= lim.burst as real
    requires InOrder(start, calls) && i < |calls|
    ensures WithinRate(lim, start, calls, key, i)
  {
    NoBonus(lim);
    hide *;
    var window := calls[|calls| - 1].now - calls[i].now;
    WindowBound(lim, start, calls, key, i, window);
    NothingMore(Accepted(lim, start, calls, key, i) as real, lim.burst as real + lim.rate * window, Bonus(lim),
      (window / lim.idle).Floor);
    IsWithin(lim, start, calls, key, i, window);
  }

  lemma NoBonus(lim: Limits)
    requires lim.rate * lim.idle >= lim.burst as real
    ensures Bonus(lim) == 0.0
  {
  }

  lemma NothingMore(accepted: real, bound: real, bonus: real, times: int)
    requires accepted <= bound + bonus * times as real && bonus == 0.0
    ensures accepted <= bound
  {
  }

  lemma IsWithin(lim: Limits, start: real, calls: seq<Call>, key: Addr, i: nat, window: real)
    requires i < |calls| && window == calls[|calls| - 1].now - calls[i].now
    requires Accepted(lim, start, calls, key, i) as real <= lim.burst as real + lim.rate * window
    ensures WithinRate(lim, start, calls, key, i)
  {
    hide Accepted;
  }

  /** Limits keep their rate if and only if a bucket that is dropped for idleness would have
      refilled: the refill over the idle time is at least the burst. */
  lemma KeepsRateIff(lim: Limits)
    requires Valid(lim)
    ensures KeepsRate(lim) <==> lim.rate * lim.idle >= lim.burst as real
  {
    ProductNonneg(lim.rate, lim.idle);
    hide InOrder, WithinRate;
    if lim.rate * lim.idle >= lim.burst as real {
      forall start, calls: seq<Call>, key, i: nat | InOrder(start, calls) && i < |calls|
        ensures WithinRate(lim, start, calls, key, i)
      {
        RefillsFirst(lim, start, calls, key, i);
      }
    } else {
      var calls := TwoBursts(lim, Zero);
    }
  }

  /** The login limits do not, and with twenty minutes for fifteen they would. */
  lemma LoginKeepsRate()
    ensures !KeepsRate(LOGIN_LIMITS) && KeepsRate(LOGIN_LIMITS.(idle := 1200.0))
  {
    KeepsRateIff(LOGIN_LIMITS);
    KeepsRateIff(LOGIN_LIMITS.(idle := 1200.0));
  }
}
