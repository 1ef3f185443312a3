/**
 The token bucket in front of the API: one bucket a key, refilled continuously up to the burst, and a
 cleanup that forgets idle keys. Times are seconds on a clock that never runs backwards; token counts
 are exact.
 */
module RateLimiter {
  datatype Settings = Settings(limit: int, window: real, burst: real, refillRate: real) {
    predicate Valid() {
      limit >= 1 && window > 0.0 && burst == limit as real && refillRate > 0.0 && refillRate * window == burst
    }
  }

  /** The settings of a limiter that was made. */
  type Config = c: Settings | c.Valid() witness Settings(1, 1.0, 1.0, 1.0)

  /** A limiter is made with at least one request, and a minute when no window is given. */
  function NewConfig(limit: int, window: real): (c: Config)
    ensures c.limit == if limit >= 1 then limit else 1
    ensures c.window == if window > 0.0 then window else 60.0
  {
    var limit' := if limit <= 0 then 1 else limit;
    var window' := if window <= 0.0 then 60.0 else window;
    Settings(limit', window', limit' as real, limit' as real / window')
  }

  datatype Bucket = Bucket(tokens: real, lastRefill: real, lastSeen: real)

  type Buckets = map<string, Bucket>

  datatype State = State(buckets: Buckets, lastClean: real)

  /** `retryAfter` is in whole seconds. */
  datatype Answer = Answer(allowed: bool, remaining: int, retryAfter: int)

  const CLEAN_EVERY: real := 300.0
  const FORGET_AFTER: real := 600.0
  const NANOS: real := 1000000000.0

  // ---------------------------------------------------------------- one request

  /** Requests without an address share one bucket. */
  function KeyOf(key: string): string {
    if key == "" then "unknown" else key
  }

  function Gain(c: Config, elapsed: real): real {
    elapsed * c.refillRate
  }

  function Refilled(c: Config, buckets: Buckets, key: string, now: real): Bucket
  {
    if key !in buckets then Bucket(c.burst, now, now)
    else
      var b := buckets[key];
      var elapsed := now - b.lastRefill;
      if elapsed > 0.0 then Bucket(Min(c.burst, b.tokens + Gain(c, elapsed)), now, now)
      else b.(lastSeen := now)
  }

  function Min(x: real, y: real): real {
    if x <= y then x else y
  }

  /** Rounded up to whole seconds, but for a last part below a nanosecond; at least one. */
  function RetryAfter(c: Config, tokens: real): int
  {
    var nanos := ((1.0 - tokens) / c.refillRate * NANOS + 999999999.0).Floor;
    if nanos / 1000000000 < 1 then 1 else nanos / 1000000000
  }

  function Forget(buckets: Buckets, now: real): Buckets {
    map key | key in buckets && now - buckets[key].lastSeen <= FORGET_AFTER :: buckets[key]
  }

  function Clean(s: State, now: real): State {
    if now - s.lastClean > CLEAN_EVERY then State(Forget(s.buckets, now), now) else s
  }

  function AnswerOf(c: Config, b: Bucket): Answer
  {
    if b.tokens >= 1.0 then Answer(true, (b.tokens - 1.0).Floor, 0)
    else Answer(false, b.tokens.Floor, RetryAfter(c, b.tokens))
  }

  /** One request, without the cleanup that follows it. */
  function Served(c: Config, s: State, key: string, now: real): State
  {
    var b := Refilled(c, s.buckets, key, now);
    s.(buckets := s.buckets[key := if b.tokens >= 1.0 then b.(tokens := b.tokens - 1.0) else b])
  }

  function Taken(c: Config, s: State, key: string, now: real): (State, Answer)
  {
    (Clean(Served(c, s, KeyOf(key), now), now), AnswerOf(c, Refilled(c, s.buckets, KeyOf(key), now)))
  }

  /** In seconds: a request more than five minutes after the last cleanup deletes the buckets that were not
      seen for more than ten minutes; any other deletes none. An empty key is the key "unknown". */
  lemma CleaningMeans(c: Config, s: State, key: string, now: real)
    ensures var t, u := Served(c, s, if key == "" then "unknown" else key, now), Taken(c, s, key, now).0;
      if now - s.lastClean > 300.0
      then
        && u.lastClean == now && u.buckets.Keys <= t.buckets.Keys
        && forall k | k in t.buckets ::
             (k in u.buckets <==> now - t.buckets[k].lastSeen <= 600.0)
             && (k in u.buckets ==> u.buckets[k] == t.buckets[k])
      else u == t
  {}

  class Limiter {
    const config: Config
    var buckets: Buckets
    var lastClean: real

    ghost function Model(): State
      reads this
    {
      State(buckets, lastClean)
    }

    constructor (limit: int, window: real, now: real)
      ensures config == NewConfig(limit, window) && Model() == State(map[], now)
    {
      config := NewConfig(limit, window);
      buckets := map[];
      lastClean := now;
    }

    method Take(key: string, now: real) returns (allowed: bool, remaining: int, retryAfter: int)
      modifies this
      ensures (Model(), Answer(allowed, remaining, retryAfter)) == Taken(config, old(Model()), key, now)
    {
      var name := if key == "" then "unknown" else key;
      var bucket := if name in buckets then buckets[name] else Bucket(config.burst, now, now);
      var elapsed := now - bucket.lastRefill;
      if elapsed > 0.0 {
        var full := bucket.tokens + Gain(config, elapsed);
        bucket := bucket.(tokens := if full < config.burst then full else config.burst, lastRefill := now);
      }
      bucket := bucket.(lastSeen := now);
      assert bucket == Refilled(config, buckets, name, now);
      allowed := bucket.tokens >= 1.0;
      retryAfter := 0;
      if allowed {
        bucket := bucket.(tokens := bucket.tokens - 1.0);
      } else {
        var missing := 1.0 - bucket.tokens;
        var nanos := (missing / config.refillRate * NANOS + 999999999.0).Floor;
        retryAfter := nanos / 1000000000;
        if retryAfter < 1 {
          retryAfter := 1;
        }
      }
      remaining := bucket.tokens.Floor;
      assert Answer(allowed, remaining, retryAfter) == AnswerOf(config, Refilled(config, buckets, name, now));
      buckets := buckets[name := bucket];
      assert Model() == Served(config, old(Model()), name, now);
      if now - lastClean > CLEAN_EVERY {
        Cleanup(now);
        lastClean := now;
      }
    }

    method Cleanup(now: real)
      modifies this`buckets
      ensures buckets == Forget(old(buckets), now)
    {
      var keys := buckets.Keys;
      while keys != {}
        invariant keys <= old(buckets).Keys
        invariant forall key :: key in buckets <==>
          key in old(buckets) && (key in keys || now - old(buckets)[key].lastSeen <= FORGET_AFTER)
        invariant forall key | key in buckets :: buckets[key] == old(buckets)[key]
        decreases |keys|
      {
        var key :| key in keys;
        if now - buckets[key].lastSeen > FORGET_AFTER {
          buckets := buckets - {key};
        }
        keys := keys - {key};
      }
    }
  }

  // ---------------------------------------------------------------- runs of requests

  datatype Request = Request(key: string, time: real)

  predicate Ordered(from: real, run: seq<Request>)
    decreases |run|
  {
    run == [] || (from <= run[0].time && Ordered(run[0].time, run[1..]))
  }

  function After(c: Config, cleans: bool, s: State, r: Request): State
  {
    var t := Served(c, s, KeyOf(r.key), r.time);
    if cleans then Clean(t, r.time) else t
  }

  /** The answers to a run, by a limiter that cleans up or by one that never deletes a bucket. */
  function Answers(c: Config, cleans: bool, s: State, run: seq<Request>): seq<Answer>
    decreases |run|
  {
    if run == [] then []
    else
      [AnswerOf(c, Refilled(c, s.buckets, KeyOf(run[0].key), run[0].time))]
        + Answers(c, cleans, After(c, cleans, s, run[0]), run[1..])
  }

  /** The request is for the key, comes in the interval and is allowed. */
  predicate Counts(c: Config, s: State, r: Request, key: string, from: real, to: real)
  {
    KeyOf(r.key) == key && from <= r.time <= to && Refilled(c, s.buckets, key, r.time).tokens >= 1.0
  }

  function Allowed(c: Config, cleans: bool, s: State, run: seq<Request>, key: string, from: real, to: real): nat
    decreases |run|
  {
    if run == [] then 0
    else
      (if Counts(c, s, run[0], key, from, to) then 1 else 0)
        + Allowed(c, cleans, After(c, cleans, s, run[0]), run[1..], key, from, to)
  }

  // ---------------------------------------------------------------- the window bound

  ghost predicate Sound(c: Config, s: State, now: real) {
    forall key | key in s.buckets ::
      0.0 <= s.buckets[key].tokens <= c.burst && s.buckets[key].lastRefill == s.buckets[key].lastSeen <= now
  }

  lemma ServeKeepsSound(c: Config, s: State, r: Request, now: real)
    requires Sound(c, s, now) && now <= r.time
    ensures Sound(c, Served(c, s, KeyOf(r.key), r.time), r.time)
  {
    hide Gain;
    var key := KeyOf(r.key);
    if key in s.buckets {
      RefillGrows(c, r.time - s.buckets[key].lastRefill);
    }
  }

  lemma RefillGrows(c: Config, elapsed: real)
    requires elapsed >= 0.0
    ensures Gain(c, elapsed) >= 0.0
    ensures elapsed == 0.0 ==> Gain(c, elapsed) == 0.0
  {}

  lemma RefillSplits(c: Config, from: real, middle: real, to: real)
    ensures Gain(c, to - from) == Gain(c, to - middle) + Gain(c, middle - from)
  {}

  /** What a key could still be granted at a time, if all its requests came then. */
  function Available(c: Config, s: State, key: string, now: real): real
  {
    if key in s.buckets then Min(c.burst, s.buckets[key].tokens + Gain(c, now - s.buckets[key].lastRefill))
    else c.burst
  }

  lemma AvailableGrows(c: Config, s: State, key: string, now: real, later: real)
    requires now <= later
    ensures Available(c, s, key, later) <= Available(c, s, key, now) + Gain(c, later - now)
  {
    hide Gain;
    RefillGrows(c, later - now);
    if key in s.buckets {
      RefillSplits(c, s.buckets[key].lastRefill, now, later);
    }
  }

  /** Before a request, a bucket refilled for it holds what is available. */
  lemma RefilledHoldsAvailable(c: Config, s: State, key: string, now: real)
    requires Sound(c, s, now)
    ensures Refilled(c, s.buckets, key, now).tokens == Available(c, s, key, now)
    ensures Refilled(c, s.buckets, key, now).lastRefill == now
  {
    hide Gain;
    if key in s.buckets && s.buckets[key].lastRefill == now {
      RefillGrows(c, 0.0);
    }
  }

  lemma AvailableIsNotNegative(c: Config, s: State, key: string, now: real)
    requires Sound(c, s, now)
    ensures 0.0 <= Available(c, s, key, now) <= c.burst
  {
    hide Gain;
    if key in s.buckets {
      RefillGrows(c, now - s.buckets[key].lastRefill);
    }
  }

  lemma ServeSpends(c: Config, s: State, r: Request, key: string, from: real, to: real)
    requires Sound(c, s, r.time)
    ensures Available(c, Served(c, s, KeyOf(r.key), r.time), key, r.time)
            <= Available(c, s, key, r.time) - if Counts(c, s, r, key, from, to) then 1.0 else 0.0
  {
    hide Gain;
    if KeyOf(r.key) == key {
      var t := Served(c, s, key, r.time);
      RefilledHoldsAvailable(c, s, key, r.time);
      AvailableIsNotNegative(c, s, key, r.time);
      assert t.buckets[key].lastRefill == r.time;
      RefillGrows(c, 0.0);
    }
  }

  lemma {:induction false} SpentSoFar(c: Config, s: State, run: seq<Request>, key: string, from: real, to: real,
      now: real)
    requires Sound(c, s, now) && Ordered(now, run) && now <= to
    ensures Allowed(c, false, s, run, key, from, to) as real <= Available(c, s, key, now) + Gain(c, to - now)
    decreases |run|
  {
    hide Gain;
    RefillGrows(c, to - now);
    AvailableIsNotNegative(c, s, key, now);
    if run != [] && run[0].time > to {
      NothingLater(c, s, run, key, from, to);
    } else if run != [] {
      var r := run[0];
      var t := Served(c, s, KeyOf(r.key), r.time);
      assert Sound(c, s, r.time);
      ServeKeepsSound(c, s, r, now);
      ServeSpends(c, s, r, key, from, to);
      AvailableGrows(c, s, key, now, r.time);
      SpentSoFar(c, t, run[1..], key, from, to, r.time);
      RefillSplits(c, now, r.time, to);
    }
  }

  lemma {:induction false} NothingLater(c: Config, s: State, run: seq<Request>, key: string, from: real, to: real)
    requires run != [] && run[0].time > to && Ordered(run[0].time, run)
    ensures Allowed(c, false, s, run, key, from, to) == 0
    decreases |run|
  {
    if |run| > 1 {
      NothingLater(c, After(c, false, s, run[0]), run[1..], key, from, to);
    }
  }

  /** A limiter that never deletes grants a key at most burst + rate * length in any interval. */
  lemma {:induction false} WindowBound(c: Config, s: State, run: seq<Request>, key: string, from: real, to: real,
      now: real)
    requires Sound(c, s, now) && Ordered(now, run) && from <= to
    ensures Allowed(c, false, s, run, key, from, to) as real <= c.burst + Gain(c, to - from)
    decreases |run|
  {
    hide Gain;
    RefillGrows(c, to - from);
    if run != [] {
      var r := run[0];
      if r.time < from {
        ServeKeepsSound(c, s, r, now);
        WindowBound(c, After(c, false, s, r), run[1..], key, from, to, r.time);
      } else if r.time > to {
        NothingLater(c, s, run, key, from, to);
      } else {
        SpentSoFar(c, s, run, key, from, to, r.time);
        RefillGrows(c, r.time - from);
        RefillSplits(c, from, r.time, to);
      }
    }
  }

  // ---------------------------------------------------------------- cleanup is invisible, or is not

  /** The cleaning limiter knows the same buckets, or has forgotten one that is full again. */
  ghost predicate Simulates(c: Config, s: State, all: State, now: real)
  {
    forall key ::
      (key in s.buckets ==> key in all.buckets && s.buckets[key] == all.buckets[key])
      && (key !in s.buckets && key in all.buckets ==> Available(c, all, key, now) == c.burst)
  }

  lemma SameAnswer(c: Config, s: State, all: State, r: Request, now: real)
    requires Sound(c, all, now) && now <= r.time && Simulates(c, s, all, now)
    ensures Refilled(c, s.buckets, KeyOf(r.key), r.time) == Refilled(c, all.buckets, KeyOf(r.key), r.time)
    ensures Simulates(c, Served(c, s, KeyOf(r.key), r.time), Served(c, all, KeyOf(r.key), r.time), r.time)
  {
    hide Gain;
    var key := KeyOf(r.key);
    forall k | k !in s.buckets && k in all.buckets
      ensures Available(c, all, k, r.time) == c.burst
    {
      StaysFull(c, all, k, now, r.time);
    }
    assert Sound(c, all, r.time);
    RefilledHoldsAvailable(c, all, key, r.time);
    assert Refilled(c, s.buckets, key, r.time) == Refilled(c, all.buckets, key, r.time);
  }

  lemma StaysFull(c: Config, s: State, key: string, now: real, later: real)
    requires now <= later && Available(c, s, key, now) == c.burst
    ensures Available(c, s, key, later) == c.burst
  {
    hide Gain;
    RefillGrows(c, later - now);
    if key in s.buckets {
      RefillSplits(c, s.buckets[key].lastRefill, now, later);
    }
  }

  lemma IdleRefills(c: Config, idle: real)
    requires idle >= c.window
    ensures Gain(c, idle) >= c.burst
  {
    RefillGrows(c, idle - c.window);
    RefillSplits(c, 0.0, c.window, idle);
  }

  lemma ForgetsFull(c: Config, s: State, all: State, now: real)
    requires c.window <= FORGET_AFTER && Sound(c, all, now) && Simulates(c, s, all, now)
    ensures Simulates(c, Clean(s, now), all, now)
  {
    hide Gain;
    forall key | key in s.buckets && key !in Clean(s, now).buckets
      ensures Available(c, all, key, now) == c.burst
    {
      IdleRefills(c, now - all.buckets[key].lastRefill);
    }
  }

  lemma {:induction false} CleanupHidden(c: Config, s: State, all: State, run: seq<Request>, now: real)
    requires c.window <= FORGET_AFTER && Sound(c, all, now) && Ordered(now, run)
        && Simulates(c, s, all, now)
    ensures Answers(c, true, s, run) == Answers(c, false, all, run)
    decreases |run|
  {
    hide Gain;
    if run != [] {
      var r := run[0];
      var t, more := Served(c, s, KeyOf(r.key), r.time), Served(c, all, KeyOf(r.key), r.time);
      SameAnswer(c, s, all, r, now);
      ServeKeepsSound(c, all, r, now);
      ForgetsFull(c, t, more, r.time);
      CleanupHidden(c, Clean(t, r.time), more, run[1..], r.time);
    }
  }

  /** What a limiter made at a time answers to a run that starts later. */
  ghost predicate CleanupInvisible(c: Config)
  {
    forall made, run | Ordered(made, run) ::
      Answers(c, true, State(map[], made), run) == Answers(c, false, State(map[], made), run)
  }

  ghost predicate BoundHolds(c: Config)
  {
    forall made, run, key, from, to | Ordered(made, run) && from <= to ::
      Allowed(c, true, State(map[], made), run, key, from, to) as real <= c.burst + Gain(c, to - from)
  }

  lemma {:induction false} SameAnswersSameCount(c: Config, s: State, all: State, run: seq<Request>, key: string,
      from: real, to: real)
    requires Answers(c, true, s, run) == Answers(c, false, all, run)
    ensures Allowed(c, true, s, run, key, from, to) == Allowed(c, false, all, run, key, from, to)
    decreases |run|
  {
    hide Gain;
    if run != [] {
      assert Answers(c, true, s, run)[0] == Answers(c, false, all, run)[0];
      assert Answers(c, true, s, run)[1..] == Answers(c, true, After(c, true, s, run[0]), run[1..]);
      assert Answers(c, false, all, run)[1..] == Answers(c, false, After(c, false, all, run[0]), run[1..]);
      SameAnswersSameCount(c, After(c, true, s, run[0]), After(c, false, all, run[0]), run[1..], key, from, to);
    }
  }

  // ---------------------------------------------------------------- a window too long for the cleanup

  function AfterAll(c: Config, cleans: bool, s: State, run: seq<Request>): State
    decreases |run|
  {
    if run == [] then s else AfterAll(c, cleans, After(c, cleans, s, run[0]), run[1..])
  }

  lemma {:induction false} AllowedAppends(c: Config, cleans: bool, s: State, run: seq<Request>, rest: seq<Request>,
      key: string, from: real, to: real)
    ensures Allowed(c, cleans, s, run + rest, key, from, to)
            == Allowed(c, cleans, s, run, key, from, to)
               + Allowed(c, cleans, AfterAll(c, cleans, s, run), rest, key, from, to)
    decreases |run|
  {
    if run == [] {
      assert run + rest == rest;
    } else {
      AllowedAppends(c, cleans, After(c, cleans, s, run[0]), run[1..], rest, key, from, to);
      assert (run + rest)[1..] == run[1..] + rest;
    }
  }

  /** `n` requests of key "a" at one time. */
  function Volley(time: real, n: nat): seq<Request> {
    if n == 0 then [] else [Request("a", time)] + Volley(time, n - 1)
  }

  lemma {:induction false} VolleyOrdered(from: real, time: real, n: nat, rest: seq<Request>)
    requires from <= time && Ordered(time, rest)
    ensures Ordered(from, Volley(time, n) + rest)
    decreases n
  {
    if n == 0 {
      assert Volley(time, n) + rest == rest;
    } else {
      VolleyOrdered(time, time, n - 1, rest);
      assert (Volley(time, n) + rest)[1..] == Volley(time, n - 1) + rest;
    }
  }

  /** A volley that the bucket can pay for is granted whole; no cleanup is due meanwhile. */
  lemma {:induction false} VolleyGranted(c: Config, s: State, time: real, n: nat)
    requires 0.0 <= time <= s.lastClean + CLEAN_EVERY
    requires n as real <= Refilled(c, s.buckets, "a", time).tokens
    requires "a" in s.buckets ==> s.buckets["a"].lastRefill <= time
    ensures Allowed(c, true, s, Volley(time, n), "a", 0.0, time) == n
    ensures var t := AfterAll(c, true, s, Volley(time, n));
      t.lastClean == s.lastClean && (n > 0 ==> "a" in t.buckets && t.buckets["a"].lastSeen == time)
    decreases n
  {
    hide Gain;
    if n > 0 {
      var t := After(c, true, s, Request("a", time));
      assert t == Served(c, s, "a", time);
      assert Refilled(c, t.buckets, "a", time).tokens == Refilled(c, s.buckets, "a", time).tokens - 1.0;
      VolleyGranted(c, t, time, n - 1);
      assert Volley(time, n)[1..] == Volley(time, n - 1);
    }
  }

  /** Twice the burst is granted within less than a window: the bucket is emptied at once, forgotten
      when another key's request cleans up, and made anew. */
  lemma ForgettingGrantsTwice(c: Config) returns (run: seq<Request>, to: real)
    requires c.window > FORGET_AFTER
    ensures Ordered(0.0, run) && 0.0 <= to
    ensures Allowed(c, true, State(map[], 0.0), run, "a", 0.0, to) as real > c.burst + Gain(c, to - 0.0)
  {
    to := (FORGET_AFTER + c.window) / 2.0;
    var other := Request("b", to);
    run := Volley(0.0, c.limit) + ([other] + Volley(to, c.limit));
    VolleyOrdered(to, to, c.limit, []);
    assert Volley(to, c.limit) + [] == Volley(to, c.limit);
    VolleyOrdered(0.0, 0.0, c.limit, [other] + Volley(to, c.limit));

    var s := State(map[], 0.0);
    VolleyGranted(c, s, 0.0, c.limit);
    var spent := AfterAll(c, true, s, Volley(0.0, c.limit));
    var cleaned := After(c, true, spent, other);
    assert cleaned == Clean(Served(c, spent, "b", to), to);
    assert "a" !in cleaned.buckets;
    VolleyGranted(c, cleaned, to, c.limit);

    AllowedAppends(c, true, s, Volley(0.0, c.limit), [other] + Volley(to, c.limit), "a", 0.0, to);
    MoreTime(c, s, Volley(0.0, c.limit), 0.0, to);
    assert ([other] + Volley(to, c.limit))[1..] == Volley(to, c.limit);
    assert Gain(c, to - 0.0) < c.burst by {
      GainBelow(c, to);
    }
  }

  lemma {:induction false} MoreTime(c: Config, s: State, run: seq<Request>, to: real, later: real)
    requires to <= later
    ensures Allowed(c, true, s, run, "a", 0.0, to) <= Allowed(c, true, s, run, "a", 0.0, later)
    decreases |run|
  {
    if run != [] {
      MoreTime(c, After(c, true, s, run[0]), run[1..], to, later);
    }
  }

  lemma GainBelow(c: Config, elapsed: real)
    requires elapsed < c.window
    ensures Gain(c, elapsed) < c.burst
  {
    assert (c.window - elapsed) * c.refillRate > 0.0;
  }

  /** Deleting idle buckets goes unnoticed exactly for windows up to ten minutes, and exactly then no
      key is ever allowed more than burst + rate * length in an interval. The server's window is one
      minute. */
  lemma CleanupIsExact(c: Config)
    ensures CleanupInvisible(c) <==> c.window <= 600.0
    ensures BoundHolds(c) <==> c.window <= 600.0
  {
    hide Gain;
    if c.window <= FORGET_AFTER {
      forall made, run | Ordered(made, run)
        ensures Answers(c, true, State(map[], made), run) == Answers(c, false, State(map[], made), run)
      {
        CleanupHidden(c, State(map[], made), State(map[], made), run, made);
      }
      forall made, run, key, from, to | Ordered(made, run) && from <= to
        ensures Allowed(c, true, State(map[], made), run, key, from, to) as real <= c.burst + Gain(c, to - from)
      {
        SameAnswersSameCount(c, State(map[], made), State(map[], made), run, key, from, to);
        WindowBound(c, State(map[], made), run, key, from, to, made);
      }
    } else {
      var run, to := ForgettingGrantsTwice(c);
      if CleanupInvisible(c) {
        SameAnswersSameCount(c, State(map[], 0.0), State(map[], 0.0), run, "a", 0.0, to);
        WindowBound(c, State(map[], 0.0), run, "a", 0.0, to, 0.0);
      }
    }
  }

  // ---------------------------------------------------------------- the advice to retry

  /** The advised wait is short by less than a nanosecond, and a second less would not do, unless the
      advice is the least there is. */
  lemma RetryAfterIsTight(c: Config, tokens: real)
    requires 0.0 <= tokens < 1.0
    ensures var wait := RetryAfter(c, tokens);
      && tokens + Gain(c, wait as real + 1.0 / NANOS) >= 1.0
      && (wait == 1 || tokens + Gain(c, wait as real - 1.0) < 1.0)
  {
    var needed := (1.0 - tokens) / c.refillRate;
    assert needed * c.refillRate == 1.0 - tokens;
    var wait := RetryAfter(c, tokens);
    GainMonotone(c, needed, wait as real + 1.0 / NANOS);
    if wait > 1 {
      assert (needed - (wait as real - 1.0)) * c.refillRate > 0.0;
    }
  }

  lemma GainMonotone(c: Config, less: real, more: real)
    requires less <= more
    ensures Gain(c, less) <= Gain(c, more)
  {
    assert (more - less) * c.refillRate >= 0.0;
  }

  /** A key that is denied and waits as advised, and a nanosecond, is allowed, forgotten or not. */
  lemma DeniedThenAllowed(c: Config, s: State, key: string, now: real, later: real)
    requires Sound(c, s, now) && Refilled(c, s.buckets, key, now).tokens < 1.0
    requires later >= now + AnswerOf(c, Refilled(c, s.buckets, key, now)).retryAfter as real + 1.0 / NANOS
    ensures Refilled(c, Served(c, s, key, now).buckets, key, later).tokens >= 1.0
    ensures Refilled(c, Clean(Served(c, s, key, now), now).buckets, key, later).tokens >= 1.0
  {
    hide Gain;
    var b := Refilled(c, s.buckets, key, now);
    RefilledHoldsAvailable(c, s, key, now);
    AvailableIsNotNegative(c, s, key, now);
    RetryAfterIsTight(c, b.tokens);
    GainMonotone(c, RetryAfter(c, b.tokens) as real + 1.0 / NANOS, later - now);
  }
}
