/** Per-address rate limiting with idle eviction, against a limiter that never evicts.
    Times are seconds and tokens are reals. */
module RateLimit {

  /** A token bucket; a new one counts as full whenever it is first asked. */
  datatype Bucket = Fresh | Used(tokens: real, last: real)

  datatype Settings = Settings(rate: real, burst: nat)

  function Available(c: Settings, b: Bucket, t: real): real {
    match b
    case Fresh => c.burst as real
    case Used(tokens, last) =>
      var elapsed := if t < last then 0.0 else t - last;
      var filled := tokens + elapsed * c.rate;
      if filled > c.burst as real then c.burst as real else filled
  }

  function Spend(c: Settings, b: Bucket, t: real): (bool, Bucket) {
    var left := Available(c, b, t) - 1.0;
    if left >= 0.0 then (true, Used(left, t)) else (false, b)
  }

  const CLEANUP_EVERY := 300.0
  const IDLE_AFTER := 600.0

  datatype Entry = Entry(bucket: Bucket, lastSeen: real)

  datatype Limiter = Limiter(entries: map<string, Entry>, lastCleanup: real)

  /** One request: the clock at cleanup, when the entry is stamped, and when the bucket is asked. */
  datatype Request = Request(ip: string, cleanupAt: real, seenAt: real, askedAt: real)

  function Cleanup(l: Limiter, now: real): Limiter {
    if now - l.lastCleanup < CLEANUP_EVERY then l
    else Limiter(map ip | ip in l.entries && !(l.entries[ip].lastSeen < now - IDLE_AFTER) :: l.entries[ip], now)
  }

  function EntryBucket(l: Limiter, ip: string): Bucket {
    if ip in l.entries then l.entries[ip].bucket else Fresh
  }

  function Allow(c: Settings, l: Limiter, r: Request): (bool, Limiter) {
    if r.ip == "" then (true, l)
    else
      var l1 := Cleanup(l, r.cleanupAt);
      var (ok, b) := Spend(c, EntryBucket(l1, r.ip), r.askedAt);
      (ok, l1.(entries := l1.entries[r.ip := Entry(b, r.seenAt)]))
  }

  /** The reference keeps every bucket for ever. */
  type Plain = map<string, Bucket>

  function PlainBucket(m: Plain, ip: string): Bucket {
    if ip in m then m[ip] else Fresh
  }

  function PlainAllow(c: Settings, m: Plain, r: Request): (bool, Plain) {
    if r.ip == "" then (true, m)
    else
      var (ok, b) := Spend(c, PlainBucket(m, r.ip), r.askedAt);
      (ok, m[r.ip := b])
  }

  function Decisions(c: Settings, l: Limiter, rs: seq<Request>): seq<bool>
    decreases |rs|
  {
    if rs == [] then []
    else
      var (ok, l') := Allow(c, l, rs[0]);
      [ok] + Decisions(c, l', rs[1..])
  }

  function PlainDecisions(c: Settings, m: Plain, rs: seq<Request>): seq<bool>
    decreases |rs|
  {
    if rs == [] then []
    else
      var (ok, m') := PlainAllow(c, m, rs[0]);
      [ok] + PlainDecisions(c, m', rs[1..])
  }

  /** The stateful limiter of the server. */
  class IpRateLimiter {
    const settings: Settings
    var limiters: map<string, Entry>
    var lastCleanup: real

    ghost function State(): Limiter
      reads this
    {
      Limiter(limiters, lastCleanup)
    }

    constructor (c: Settings, now: real)
      ensures settings == c && State() == Limiter(map[], now)
    {
      settings, limiters, lastCleanup := c, map[], now;
    }

    method AllowRequest(r: Request) returns (ok: bool)
      modifies this
      ensures (ok, State()) == Allow(settings, old(State()), r)
    {
      if r.ip == "" {
        return true;
      }
      CleanupLocked(r.cleanupAt);
      var bucket := if r.ip in limiters then limiters[r.ip].bucket else Fresh;
      var spent := Spend(settings, bucket, r.askedAt);
      limiters := limiters[r.ip := Entry(spent.1, r.seenAt)];
      return spent.0;
    }

    /** Every five minutes, drops the entries not seen for ten. */
    method CleanupLocked(now: real)
      modifies this
      ensures State() == Cleanup(old(State()), now)
    {
      if now - lastCleanup < CLEANUP_EVERY {
        return;
      }
      var cutoff := now - IDLE_AFTER;
      var rest := limiters.Keys;
      while rest != {}
        invariant lastCleanup == old(lastCleanup) && rest <= old(limiters).Keys
        invariant limiters.Keys <= old(limiters).Keys
        invariant forall ip :: ip in old(limiters) ==>
          (ip in limiters <==> ip in rest || !(old(limiters)[ip].lastSeen < cutoff))
        invariant forall ip :: ip in limiters ==> limiters[ip] == old(limiters)[ip]
        decreases rest
      {
        var ip :| ip in rest;
        rest := rest - {ip};
        if limiters[ip].lastSeen < cutoff {
          limiters := limiters - {ip};
        }
      }
      lastCleanup := now;
    }
  }

  // ----------------------------------------------------------------- simulation

  /** A bucket that would be full if asked at `t` or later. */
  ghost predicate FullAt(c: Settings, b: Bucket, t: real) {
    b.Fresh? || (b.last <= t && b.tokens + (t - b.last) * c.rate >= c.burst as real)
  }

  /** Buckets no later question can tell apart. */
  ghost predicate SameFrom(c: Settings, a: Bucket, b: Bucket, t: real) {
    a == b || (FullAt(c, a, t) && FullAt(c, b, t))
  }

  lemma FullStays(c: Settings, b: Bucket, t: real, u: real)
    requires c.rate >= 0.0 && t <= u && FullAt(c, b, t)
    ensures FullAt(c, b, u) && Available(c, b, u) == c.burst as real
  {
    if b.Used? {
      assert (u - b.last) * c.rate == (t - b.last) * c.rate + (u - t) * c.rate;
      assert (u - t) * c.rate >= 0.0;
    }
  }

  lemma SpendAlike(c: Settings, a: Bucket, b: Bucket, t: real, u: real)
    requires c.rate >= 0.0 && t <= u && SameFrom(c, a, b, t)
    ensures Spend(c, a, u).0 == Spend(c, b, u).0
    ensures SameFrom(c, Spend(c, a, u).1, Spend(c, b, u).1, u)
  {
    if a != b {
      FullStays(c, a, t, u);
      FullStays(c, b, t, u);
    }
  }

  /** An idle bucket refills within the idle period, less the stamping delay. */
  ghost predicate RefillsWhenIdle(c: Settings, delay: real) {
    0.0 <= delay <= IDLE_AFTER && (IDLE_AFTER - delay) * c.rate >= c.burst as real
  }

  ghost predicate Stamped(e: Entry, delay: real) {
    e.bucket.Used? ==> e.bucket.tokens >= 0.0 && e.bucket.last <= e.lastSeen + delay
  }

  ghost predicate Simulates(c: Settings, l: Limiter, m: Plain, t: real, delay: real) {
    && l.entries.Keys <= m.Keys
    && (forall ip :: ip in m ==> SameFrom(c, EntryBucket(l, ip), m[ip], t))
    && (forall ip :: ip in l.entries ==> Stamped(l.entries[ip], delay) && l.entries[ip].lastSeen <= t)
  }

  lemma IdleIsFull(c: Settings, e: Entry, now: real, delay: real)
    requires c.rate >= 0.0 && RefillsWhenIdle(c, delay) && Stamped(e, delay) && e.lastSeen < now - IDLE_AFTER
    ensures FullAt(c, e.bucket, now)
  {
    if e.bucket.Used? {
      var idle := now - e.bucket.last;
      assert idle >= IDLE_AFTER - delay;
      assert (idle - (IDLE_AFTER - delay)) * c.rate >= 0.0;
      assert idle * c.rate == (IDLE_AFTER - delay) * c.rate + (idle - (IDLE_AFTER - delay)) * c.rate;
    }
  }

  lemma SameLater(c: Settings, a: Bucket, b: Bucket, t: real, u: real)
    requires c.rate >= 0.0 && t <= u && SameFrom(c, a, b, t)
    ensures SameFrom(c, a, b, u)
  {
    if a != b {
      FullStays(c, a, t, u);
      FullStays(c, b, t, u);
    }
  }

  lemma CleanupSimulates(c: Settings, l: Limiter, m: Plain, t: real, now: real, delay: real)
    requires c.rate >= 0.0 && RefillsWhenIdle(c, delay) && t <= now && Simulates(c, l, m, t, delay)
    ensures Simulates(c, Cleanup(l, now), m, now, delay)
  {
    var l1 := Cleanup(l, now);
    forall ip | ip in m
      ensures SameFrom(c, EntryBucket(l1, ip), m[ip], now)
    {
      SameLater(c, EntryBucket(l, ip), m[ip], t, now);
      if ip in l.entries && ip !in l1.entries {
        IdleIsFull(c, l.entries[ip], now, delay);
      }
    }
  }

  lemma AllowSimulates(c: Settings, l: Limiter, m: Plain, t: real, r: Request, delay: real)
    requires c.rate >= 0.0 && RefillsWhenIdle(c, delay) && Simulates(c, l, m, t, delay)
    requires t <= r.cleanupAt <= r.seenAt <= r.askedAt <= r.seenAt + delay
    ensures Allow(c, l, r).0 == PlainAllow(c, m, r).0
    ensures Simulates(c, Allow(c, l, r).1, PlainAllow(c, m, r).1, r.askedAt, delay)
  {
    if r.ip == "" {
      forall ip | ip in m
        ensures SameFrom(c, EntryBucket(l, ip), m[ip], r.askedAt)
      {
        SameLater(c, EntryBucket(l, ip), m[ip], t, r.askedAt);
      }
    } else {
      CleanupSimulates(c, l, m, t, r.cleanupAt, delay);
      var l1 := Cleanup(l, r.cleanupAt);
      forall ip | ip in m
        ensures SameFrom(c, EntryBucket(l1, ip), m[ip], r.askedAt)
      {
        SameLater(c, EntryBucket(l1, ip), m[ip], r.cleanupAt, r.askedAt);
      }
      assert SameFrom(c, EntryBucket(l1, r.ip), PlainBucket(m, r.ip), r.cleanupAt);
      SpendAlike(c, EntryBucket(l1, r.ip), PlainBucket(m, r.ip), r.cleanupAt, r.askedAt);
    }
  }

  /** Requests one after another, each reading the clock up to `delay` after its stamp. */
  ghost predicate Timely(rs: seq<Request>, from: real, delay: real) {
    rs == [] ||
    (&& from <= rs[0].cleanupAt <= rs[0].seenAt <= rs[0].askedAt <= rs[0].seenAt + delay
     && Timely(rs[1..], rs[0].askedAt, delay))
  }

  lemma {:induction false} SimulatedDecisions(c: Settings, l: Limiter, m: Plain, t: real, rs: seq<Request>, delay: real)
    requires c.rate >= 0.0 && RefillsWhenIdle(c, delay) && Simulates(c, l, m, t, delay) && Timely(rs, t, delay)
    ensures Decisions(c, l, rs) == PlainDecisions(c, m, rs)
    decreases |rs|
  {
    if rs != [] {
      AllowSimulates(c, l, m, t, rs[0], delay);
      SimulatedDecisions(c, Allow(c, l, rs[0]).1, PlainAllow(c, m, rs[0]).1, rs[0].askedAt, rs[1..], delay);
    }
  }

  /** Eviction cannot be observed when an idle bucket has time to refill. */
  lemma EvictionUnobservable(c: Settings, start: real, rs: seq<Request>, delay: real)
    requires c.rate >= 0.0 && RefillsWhenIdle(c, delay) && Timely(rs, start, delay)
    ensures Decisions(c, Limiter(map[], start), rs) == PlainDecisions(c, map[], rs)
  {
    SimulatedDecisions(c, Limiter(map[], start), map[], start, rs, delay);
  }

  /** The authentication, watch and A2A settings leave ample time. */
  lemma ServerSettingsRefill(rpm: nat)
    ensures RefillsWhenIdle(Settings(10.0 / 60.0, 20), 480.0)
    ensures RefillsWhenIdle(Settings(30.0, 30), 599.0)
    ensures RefillsWhenIdle(Settings(rpm as real / 60.0, rpm), 540.0)
  {
  }

  // --------------------------------------------------------- the exact condition

  function Repeat(ip: string, t: real, n: nat): seq<Request> {
    if n == 0 then [] else [Request(ip, t, t, t)] + Repeat(ip, t, n - 1)
  }

  lemma {:induction false} RepeatTimely(ip: string, t: real, n: nat, rest: seq<Request>)
    requires Timely(rest, t, 0.0)
    ensures Timely(Repeat(ip, t, n) + rest, t, 0.0)
  {
    if n == 0 {
      assert Repeat(ip, t, n) + rest == rest;
    } else {
      RepeatTimely(ip, t, n - 1, rest);
      assert (Repeat(ip, t, n) + rest)[1..] == Repeat(ip, t, n - 1) + rest;
    }
  }

  function PlainAfter(c: Settings, m: Plain, rs: seq<Request>): Plain
    decreases |rs|
  {
    if rs == [] then m else PlainAfter(c, PlainAllow(c, m, rs[0]).1, rs[1..])
  }

  function After(c: Settings, l: Limiter, rs: seq<Request>): Limiter
    decreases |rs|
  {
    if rs == [] then l else After(c, Allow(c, l, rs[0]).1, rs[1..])
  }

  lemma {:induction false} DecisionsConcat(c: Settings, l: Limiter, m: Plain, rs: seq<Request>, ss: seq<Request>)
    ensures Decisions(c, l, rs + ss) == Decisions(c, l, rs) + Decisions(c, After(c, l, rs), ss)
    ensures PlainDecisions(c, m, rs + ss) == PlainDecisions(c, m, rs) + PlainDecisions(c, PlainAfter(c, m, rs), ss)
    ensures |Decisions(c, l, rs)| == |rs| == |PlainDecisions(c, m, rs)|
    decreases |rs|
  {
    if rs == [] {
      assert rs + ss == ss;
    } else {
      assert (rs + ss)[1..] == rs[1..] + ss;
      DecisionsConcat(c, Allow(c, l, rs[0]).1, PlainAllow(c, m, rs[0]).1, rs[1..], ss);
    }
  }

  /** Asking a never-evicting limiter more often than it has tokens draws a refusal. */
  lemma {:induction false} PlainRefuses(c: Settings, m: Plain, ip: string, t: real, n: nat)
    requires ip != "" && n > 0 && Available(c, PlainBucket(m, ip), t) < n as real
    ensures false in PlainDecisions(c, m, Repeat(ip, t, n))
    decreases n
  {
    var rs := Repeat(ip, t, n);
    assert rs[1..] == Repeat(ip, t, n - 1);
    var r := PlainAllow(c, m, rs[0]);
    if r.0 {
      assert PlainBucket(r.1, ip) == Used(Available(c, PlainBucket(m, ip), t) - 1.0, t);
      PlainRefuses(c, r.1, ip, t, n - 1);
    }
  }

  lemma {:induction false} PlainDrains(c: Settings, m: Plain, ip: string, t: real, n: nat)
    requires ip != "" && n > 0 && n as real <= Available(c, PlainBucket(m, ip), t)
    ensures PlainBucket(PlainAfter(c, m, Repeat(ip, t, n)), ip) ==
              Used(Available(c, PlainBucket(m, ip), t) - n as real, t)
    decreases n
  {
    var rs := Repeat(ip, t, n);
    assert rs[1..] == Repeat(ip, t, n - 1);
    var r := PlainAllow(c, m, rs[0]);
    assert PlainBucket(r.1, ip) == Used(Available(c, PlainBucket(m, ip), t) - 1.0, t);
    BucketCapped(c, PlainBucket(m, ip), t);
    if n > 1 {
      PlainDrains(c, r.1, ip, t, n - 1);
    }
  }

  lemma BucketCapped(c: Settings, b: Bucket, t: real)
    ensures Available(c, b, t) <= c.burst as real
  {
  }

  lemma {:induction false} LimiterDrains(c: Settings, l: Limiter, ip: string, t: real, n: nat)
    requires ip != "" && 0.0 <= t - l.lastCleanup < CLEANUP_EVERY
    requires n as real <= Available(c, EntryBucket(l, ip), t) && l.entries.Keys <= {ip}
    ensures false !in Decisions(c, l, Repeat(ip, t, n))
    ensures var l' := After(c, l, Repeat(ip, t, n));
            l'.lastCleanup == l.lastCleanup && l'.entries.Keys <= {ip}
            && (n > 0 ==> ip in l'.entries && l'.entries[ip].lastSeen == t)
    decreases n
  {
    if n > 0 {
      var rs := Repeat(ip, t, n);
      assert rs[1..] == Repeat(ip, t, n - 1);
      var r := Allow(c, l, rs[0]);
      BucketCapped(c, EntryBucket(l, ip), t);
      LimiterDrains(c, r.1, ip, t, n - 1);
    }
  }

  /** Cleaning up twice at one instant changes nothing more. */
  lemma CleanedFirst(c: Settings, l: Limiter, rs: seq<Request>)
    requires rs != [] && rs[0].ip != ""
    ensures Decisions(c, l, rs) == Decisions(c, Cleanup(l, rs[0].cleanupAt), rs)
  {
  }

  ghost predicate Unobservable(c: Settings) {
    forall start: real, rs: seq<Request> :: Timely(rs, start, 0.0) ==>
      Decisions(c, Limiter(map[], start), rs) == PlainDecisions(c, map[], rs)
  }

  lemma IdleSpell(c: Settings) returns (t: real)
    requires c.rate >= 0.0 && IDLE_AFTER * c.rate < c.burst as real
    ensures t > IDLE_AFTER && t * c.rate < c.burst as real
  {
    if c.rate == 0.0 {
      return IDLE_AFTER + 1.0;
    }
    var spare := (c.burst as real - IDLE_AFTER * c.rate) / (2.0 * c.rate);
    t := IDLE_AFTER + spare;
    assert spare * c.rate == (c.burst as real - IDLE_AFTER * c.rate) / 2.0;
    assert t * c.rate == IDLE_AFTER * c.rate + spare * c.rate;
  }

  /** After a burst at time zero, the never-evicting limiter refuses part of the next. */
  lemma PlainSecondBurst(c: Settings, t: real)
    requires c.burst > 0 && t > 0.0 && t * c.rate < c.burst as real
    ensures false in PlainDecisions(c, PlainAfter(c, map[], Repeat("a", 0.0, c.burst)), Repeat("a", t, c.burst))
  {
    var m := PlainAfter(c, map[], Repeat("a", 0.0, c.burst));
    PlainDrains(c, map[], "a", 0.0, c.burst);
    PlainRefuses(c, m, "a", t, c.burst);
  }

  /** The evicting limiter has forgotten the first burst and grants the second in full. */
  lemma EvictedSecondBurst(c: Settings, t: real)
    requires c.burst > 0 && t > IDLE_AFTER
    ensures false !in Decisions(c, After(c, Limiter(map[], 0.0), Repeat("a", 0.0, c.burst)), Repeat("a", t, c.burst))
  {
    LimiterDrains(c, Limiter(map[], 0.0), "a", 0.0, c.burst);
    var l := After(c, Limiter(map[], 0.0), Repeat("a", 0.0, c.burst));
    assert Cleanup(l, t) == Limiter(map[], t);
    CleanedFirst(c, l, Repeat("a", t, c.burst));
    LimiterDrains(c, Limiter(map[], t), "a", t, c.burst);
  }

  /** A burst, an idle spell that evicts but does not refill, and a second burst. */
  lemma EvictionObserved(c: Settings)
    requires c.rate >= 0.0 && IDLE_AFTER * c.rate < c.burst as real
    ensures !Unobservable(c)
  {
    var t := IdleSpell(c);
    assert c.burst > 0 by {
      assert IDLE_AFTER * c.rate >= 0.0;
    }
    var first, second := Repeat("a", 0.0, c.burst), Repeat("a", t, c.burst);
    var l0 := Limiter(map[], 0.0);
    PlainSecondBurst(c, t);
    EvictedSecondBurst(c, t);
    TwoBursts(t, c.burst);
    DecisionsConcat(c, l0, map[], first, second);
    SuffixesDiffer(Decisions(c, l0, first), PlainDecisions(c, map[], first),
                   Decisions(c, After(c, l0, first), second), PlainDecisions(c, PlainAfter(c, map[], first), second));
  }

  lemma TwoBursts(t: real, n: nat)
    requires t >= 0.0
    ensures Timely(Repeat("a", 0.0, n) + Repeat("a", t, n), 0.0, 0.0)
  {
    RepeatTimely("a", t, n, []);
    assert Repeat("a", t, n) + [] == Repeat("a", t, n);
    TimelyEarlier(Repeat("a", t, n), t, 0.0);
    RepeatTimely("a", 0.0, n, Repeat("a", t, n));
  }

  lemma TimelyEarlier(rs: seq<Request>, t: real, s: real)
    requires s <= t && Timely(rs, t, 0.0)
    ensures Timely(rs, s, 0.0)
  {
  }

  lemma SuffixesDiffer(a: seq<bool>, b: seq<bool>, x: seq<bool>, y: seq<bool>)
    requires |a| == |b| && x != y
    ensures a + x != b + y
  {
    assert x == (a + x)[|a|..] && y == (b + y)[|b|..];
  }

  /** Eviction is unobservable exactly when ten idle minutes refill a bucket. */
  lemma UnobservableExactly(c: Settings)
    requires c.rate >= 0.0
    ensures Unobservable(c) <==> IDLE_AFTER * c.rate >= c.burst as real
  {
    if IDLE_AFTER * c.rate < c.burst as real {
      EvictionObserved(c);
    } else {
      forall start: real, rs: seq<Request> | Timely(rs, start, 0.0)
        ensures Decisions(c, Limiter(map[], start), rs) == PlainDecisions(c, map[], rs)
      {
        EvictionUnobservable(c, start, rs, 0.0);
      }
    }
  }
}
