/** The token bucket (minidb/chaos/rate_limiter.py:48-110). Time and tokens are reals, and
    every reading of the clock is a parameter. */
module TokenBucket {
  datatype Limits = Limits(rate: real, burst: real)

  datatype Bucket = Bucket(tokens: real, lastUpdate: real)

  type Buckets = map<string, Bucket>

  /** A request for a permit, or a query of the level. The clock is read once when a bucket
      is created and once when it is refilled. */
  datatype Call = Acquire(key: string, born: real, now: real) | Peek(key: string, born: real, now: real)

  function Refill(c: Limits, b: Bucket, now: real): Bucket {
    var filled := b.tokens + (now - b.lastUpdate) * c.rate;
    Bucket(if c.burst <= filled then c.burst else filled, now)
  }

  function Fetch(c: Limits, buckets: Buckets, call: Call): Bucket {
    if call.key in buckets then buckets[call.key] else Bucket(c.burst, call.born)
  }

  predicate Grants(c: Limits, buckets: Buckets, call: Call) {
    call.Acquire? && Refill(c, Fetch(c, buckets, call), call.now).tokens >= 1.0
  }

  function Step(c: Limits, buckets: Buckets, call: Call): Buckets {
    var b := Refill(c, Fetch(c, buckets, call), call.now);
    buckets[call.key := if Grants(c, buckets, call) then b.(tokens := b.tokens - 1.0) else b]
  }

  /** The buckets after the first i calls. */
  function State(c: Limits, calls: seq<Call>, i: nat): Buckets
    requires i <= |calls|
  {
    if i == 0 then map[] else Step(c, State(c, calls, i - 1), calls[i - 1])
  }

  predicate Granted(c: Limits, calls: seq<Call>, i: nat)
    requires i < |calls|
  {
    Grants(c, State(c, calls, i), calls[i])
  }

  /** How many of the calls from number p up to number i were granted to the key. */
  function Count(c: Limits, calls: seq<Call>, key: string, p: nat, i: nat): nat
    requires p <= i <= |calls|
  {
    if p == i then 0
    else Count(c, calls, key, p, i - 1) + if calls[i - 1].key == key && Granted(c, calls, i - 1) then 1 else 0
  }

  /** What accrues from one time to another. */
  function Gain(c: Limits, from: real, to: real): real {
    (to - from) * c.rate
  }

  lemma GainAdds(c: Limits, t: real, u: real, v: real)
    ensures Gain(c, t, v) == Gain(c, t, u) + Gain(c, u, v)
    ensures Gain(c, t, t) == 0.0
  {
    var x, y := u - t, v - u;
    assert v - t == x + y;
    assert (x + y) * c.rate == x * c.rate + y * c.rate;
  }

  lemma GainGrows(c: Limits, t: real, u: real, a: real, z: real)
    requires a <= t && u <= z && c.rate >= 0.0
    ensures Gain(c, t, u) <= Gain(c, a, z)
  {
    var x, y := u - t, (z - a) - (u - t);
    assert y * c.rate >= 0.0;
    assert (x + y) * c.rate == x * c.rate + y * c.rate;
  }

  /** The allowance since call p, less what was granted since. */
  function Level(c: Limits, calls: seq<Call>, key: string, p: nat, i: nat, now: real): real
    requires p <= i <= |calls| && p < |calls|
  {
    c.burst + Gain(c, calls[p].now, now) - Count(c, calls, key, p, i) as real
  }

  function Spent(c: Limits, calls: seq<Call>, i: nat): real
    requires i < |calls|
  {
    if Granted(c, calls, i) then 1.0 else 0.0
  }

  /** From call to call for a key, the tokens grow by the gain, up to the burst, and are spent. */
  lemma Evolves(c: Limits, calls: seq<Call>, i: nat, before: Bucket, filled: real)
    requires i < |calls| && before == Fetch(c, State(c, calls, i), calls[i])
    requires filled == before.tokens + Gain(c, before.lastUpdate, calls[i].now)
    ensures var full := if c.burst <= filled then c.burst else filled;
            && calls[i].key in State(c, calls, i + 1)
            && State(c, calls, i + 1)[calls[i].key] == Bucket(full - Spent(c, calls, i), calls[i].now)
            && (Granted(c, calls, i) <==> calls[i].Acquire? && full >= 1.0)
  {
    assert State(c, calls, i + 1) == Step(c, State(c, calls, i), calls[i]);
    assert Refill(c, before, calls[i].now) == Bucket(if c.burst <= filled then c.burst else filled, calls[i].now);
  }

  lemma Untouched(c: Limits, calls: seq<Call>, i: nat, key: string)
    requires i < |calls| && calls[i].key != key
    ensures key in State(c, calls, i) <==> key in State(c, calls, i + 1)
    ensures key in State(c, calls, i) ==> State(c, calls, i + 1)[key] == State(c, calls, i)[key]
    ensures forall p :: 0 <= p <= i ==> Count(c, calls, key, p, i + 1) == Count(c, calls, key, p, i)
  {
    assert State(c, calls, i + 1) == Step(c, State(c, calls, i), calls[i]);
  }

  lemma CountStep(c: Limits, calls: seq<Call>, p: nat, i: nat)
    requires p <= i < |calls|
    ensures Count(c, calls, calls[i].key, p, i + 1) as real
            == Count(c, calls, calls[i].key, p, i) as real + Spent(c, calls, i)
  {}

  /** Between two calls a level moves exactly as the refill does. */
  lemma LevelStep(c: Limits, calls: seq<Call>, p: nat, i: nat, u: real)
    requires p <= i < |calls|
    ensures Level(c, calls, calls[i].key, p, i, calls[i].now)
            == Level(c, calls, calls[i].key, p, i, u) + Gain(c, u, calls[i].now)
    ensures Level(c, calls, calls[i].key, p, i + 1, calls[i].now)
            == Level(c, calls, calls[i].key, p, i, calls[i].now) - Spent(c, calls, i)
    ensures p == i ==> Level(c, calls, calls[i].key, p, i, calls[i].now) == c.burst
  {
    GainAdds(c, calls[p].now, u, calls[i].now);
    CountStep(c, calls, p, i);
  }

  /** The tokens never exceed the level of any earlier call for the key. */
  lemma {:induction false} TokensWithinLevels(c: Limits, calls: seq<Call>, i: nat, key: string, p: nat)
    requires p < i <= |calls| && calls[p].key == key
    ensures key in State(c, calls, i)
    ensures var b := State(c, calls, i)[key]; b.tokens <= Level(c, calls, key, p, i, b.lastUpdate)
  {
    var j := i - 1;
    if calls[j].key != key {
      TokensWithinLevels(c, calls, j, key, p);
      Untouched(c, calls, j, key);
    } else {
      var b := Fetch(c, State(c, calls, j), calls[j]);
      Evolves(c, calls, j, b, b.tokens + Gain(c, b.lastUpdate, calls[j].now));
      LevelStep(c, calls, p, j, b.lastUpdate);
      if p < j { TokensWithinLevels(c, calls, j, key, p); }
    }
  }

  /** Buckets come into being before they are used, and the rate is not negative. */
  predicate Sane(c: Limits, calls: seq<Call>) {
    c.rate >= 0.0 && forall i :: 0 <= i < |calls| ==> calls[i].born <= calls[i].now
  }

  /** And they equal the level of some earlier call. */
  lemma {:induction false} TokensAttainLevel(c: Limits, calls: seq<Call>, i: nat, key: string) returns (p: nat)
    requires Sane(c, calls) && i <= |calls| && key in State(c, calls, i)
    ensures p < i && calls[p].key == key
    ensures var b := State(c, calls, i)[key]; b.tokens == Level(c, calls, key, p, i, b.lastUpdate)
  {
    var j := i - 1;
    if calls[j].key != key {
      Untouched(c, calls, j, key);
      p := TokensAttainLevel(c, calls, j, key);
    } else {
      var b := Fetch(c, State(c, calls, j), calls[j]);
      var filled := b.tokens + Gain(c, b.lastUpdate, calls[j].now);
      Evolves(c, calls, j, b, filled);
      FirstIsFull(c, calls, j);
      if c.burst <= filled {
        p := j;
      } else {
        p := TokensAttainLevel(c, calls, j, key);
      }
      LevelStep(c, calls, p, j, b.lastUpdate);
    }
  }

  lemma FirstIsFull(c: Limits, calls: seq<Call>, i: nat)
    requires Sane(c, calls) && i < |calls|
    ensures calls[i].key !in State(c, calls, i) ==>
              var b := Fetch(c, State(c, calls, i), calls[i]); c.burst <= b.tokens + Gain(c, b.lastUpdate, calls[i].now)
  {
    var call := calls[i];
    GainGrows(c, call.born, call.born, call.born, call.now);
    GainAdds(c, call.born, call.born, call.born);
  }

  /** Granting call i keeps the span since call p within its allowance, burst + rate * length. */
  predicate Fits(c: Limits, calls: seq<Call>, p: nat, i: nat)
    requires p <= i < |calls|
  {
    Count(c, calls, calls[i].key, p, i) as real + 1.0 <= c.burst + Gain(c, calls[p].now, calls[i].now)
  }

  /** A granted request fits every span that starts at a call for its key, whatever the
      clock does and whatever the rate and burst are. */
  lemma GrantedFits(c: Limits, calls: seq<Call>, i: nat, p: nat)
    requires p <= i < |calls| && Granted(c, calls, i) && calls[p].key == calls[i].key
    ensures Fits(c, calls, p, i)
  {
    var b := Fetch(c, State(c, calls, i), calls[i]);
    Evolves(c, calls, i, b, b.tokens + Gain(c, b.lastUpdate, calls[i].now));
    LevelStep(c, calls, p, i, b.lastUpdate);
    if p < i { TokensWithinLevels(c, calls, i, calls[i].key, p); }
  }

  lemma RefusedDoesNotFit(c: Limits, calls: seq<Call>, i: nat) returns (p: nat)
    requires Sane(c, calls) && i < |calls| && calls[i].Acquire? && !Granted(c, calls, i)
    ensures p <= i && calls[p].key == calls[i].key && !Fits(c, calls, p, i)
  {
    var b := Fetch(c, State(c, calls, i), calls[i]);
    var filled := b.tokens + Gain(c, b.lastUpdate, calls[i].now);
    Evolves(c, calls, i, b, filled);
    FirstIsFull(c, calls, i);
    if c.burst <= filled { p := i; } else { p := TokensAttainLevel(c, calls, i, calls[i].key); }
    LevelStep(c, calls, p, i, b.lastUpdate);
  }

  /** A request is granted exactly when no span that starts at an earlier call for its key,
      or at the request itself, would exceed burst + rate * length by it. */
  lemma GrantedExactly(c: Limits, calls: seq<Call>, i: nat)
    requires Sane(c, calls) && i < |calls| && calls[i].Acquire?
    ensures Granted(c, calls, i) <==> forall p :: 0 <= p <= i && calls[p].key == calls[i].key ==> Fits(c, calls, p, i)
  {
    if Granted(c, calls, i) {
      forall p | 0 <= p <= i && calls[p].key == calls[i].key ensures Fits(c, calls, p, i) {
        GrantedFits(c, calls, i, p);
      }
    } else {
      var p := RefusedDoesNotFit(c, calls, i);
    }
  }

  /** The level a query shows, exactly: the least of what the spans since each call for the
      key, the query included, still allow. */
  predicate LeastLevel(c: Limits, calls: seq<Call>, i: nat, tokens: real)
    requires i < |calls|
  {
    && (forall p :: 0 <= p <= i && calls[p].key == calls[i].key ==>
          tokens <= Level(c, calls, calls[i].key, p, i + 1, calls[i].now))
    && (exists p :: 0 <= p <= i && calls[p].key == calls[i].key
                    && tokens == Level(c, calls, calls[i].key, p, i + 1, calls[i].now))
  }

  lemma AvailableExactly(c: Limits, calls: seq<Call>, i: nat)
    requires Sane(c, calls) && i < |calls|
    ensures calls[i].key in State(c, calls, i + 1)
    ensures LeastLevel(c, calls, i, State(c, calls, i + 1)[calls[i].key].tokens)
  {
    var key := calls[i].key;
    var b := Fetch(c, State(c, calls, i), calls[i]);
    Evolves(c, calls, i, b, b.tokens + Gain(c, b.lastUpdate, calls[i].now));
    forall p | 0 <= p <= i && calls[p].key == key
      ensures State(c, calls, i + 1)[key].tokens <= Level(c, calls, key, p, i + 1, calls[i].now) {
      TokensWithinLevels(c, calls, i + 1, key, p);
    }
    var p := TokensAttainLevel(c, calls, i + 1, key);
  }

  // ------------------------------------------------------------------- any window

  predicate Counted(c: Limits, calls: seq<Call>, key: string, a: real, z: real, i: nat)
    requires i < |calls|
  {
    calls[i].key == key && Granted(c, calls, i) && a <= calls[i].now <= z
  }

  /** How many of the first n calls were granted to the key at a time from a to z. */
  function CountWithin(c: Limits, calls: seq<Call>, key: string, a: real, z: real, n: nat): nat
    requires n <= |calls|
  {
    if n == 0 then 0
    else CountWithin(c, calls, key, a, z, n - 1) + if Counted(c, calls, key, a, z, n - 1) then 1 else 0
  }

  /** From the first counted call on, every counted call is one of those granted since. */
  lemma {:induction false} FirstCounted(c: Limits, calls: seq<Call>, key: string, a: real, z: real, n: nat)
      returns (p: nat)
    requires n <= |calls| && CountWithin(c, calls, key, a, z, n) > 0
    ensures p < n && Counted(c, calls, key, a, z, p)
            && CountWithin(c, calls, key, a, z, n) <= Count(c, calls, key, p, n)
  {
    if CountWithin(c, calls, key, a, z, n - 1) > 0 {
      p := FirstCounted(c, calls, key, a, z, n - 1);
    } else {
      p := n - 1;
    }
  }

  /** In every run, for every key and every window of time, at most burst + rate * length
      requests are granted; none at all if that is not positive. */
  lemma {:induction false} WindowBound(c: Limits, calls: seq<Call>, key: string, a: real, z: real, n: nat)
    requires c.rate >= 0.0 && n <= |calls|
    ensures var granted := CountWithin(c, calls, key, a, z, n);
            granted == 0 || granted as real <= c.burst + Gain(c, a, z)
  {
    if n > 0 {
      if Counted(c, calls, key, a, z, n - 1) {
        var p := FirstCounted(c, calls, key, a, z, n);
        GrantedFits(c, calls, n - 1, p);
        GainGrows(c, calls[p].now, calls[n - 1].now, a, z);
      } else {
        WindowBound(c, calls, key, a, z, n - 1);
      }
    }
  }

  // --------------------------------------------------------------------- the class

  lemma {:induction false} StateOfPrefix(c: Limits, calls: seq<Call>, call: Call, i: nat)
    requires i <= |calls|
    ensures State(c, calls + [call], i) == State(c, calls, i)
  {
    if i > 0 { StateOfPrefix(c, calls, call, i - 1); }
  }

  lemma Appended(c: Limits, calls: seq<Call>, call: Call)
    ensures var longer := calls + [call];
            && State(c, longer, |longer|) == Step(c, State(c, calls, |calls|), call)
            && (Granted(c, longer, |calls|) <==> Grants(c, State(c, calls, |calls|), call))
  {
    StateOfPrefix(c, calls, call, |calls|);
  }

  class TokenBucketLimiter {
    const limits: Limits
    var buckets: Buckets
    var total: nat
    var allowed: nat
    var rejected: nat
    /** Every call so far. */
    ghost var calls: seq<Call>

    constructor (rate: real, burst: real)
      ensures Valid() && limits == Limits(rate, burst) && calls == [] && total == allowed == rejected == 0
    {
      limits := Limits(rate, burst);
      buckets, calls := map[], [];
      total, allowed, rejected := 0, 0, 0;
    }

    ghost predicate Valid()
      reads this
    {
      buckets == State(limits, calls, |calls|) && total == allowed + rejected
    }

    /** Fetches the bucket, creating a full one if needed, and refills it. */
    method Refreshed(key: string, born: real, now: real)
      modifies this`buckets
      ensures buckets == old(buckets)[key := Refill(limits, Fetch(limits, old(buckets), Peek(key, born, now)), now)]
    {
      if key !in buckets { buckets := buckets[key := Bucket(limits.burst, born)]; }
      var b := buckets[key];
      var filled := b.tokens + (now - b.lastUpdate) * limits.rate;
      var refilled := Bucket(if limits.burst <= filled then limits.burst else filled, now);
      assert b == Fetch(limits, old(buckets), Peek(key, born, now)) && refilled == Refill(limits, b, now);
      buckets := buckets[key := refilled];
    }

    method TryAcquire(key: string, born: real, now: real) returns (ok: bool)
      requires Valid()
      modifies this
      ensures Valid() && calls == old(calls) + [Acquire(key, born, now)]
      ensures ok == Granted(limits, calls, |calls| - 1)
      ensures total == old(total) + 1 && allowed == old(allowed) + if ok then 1 else 0
    {
      Appended(limits, calls, Acquire(key, born, now));
      calls := calls + [Acquire(key, born, now)];
      total := total + 1;
      Refreshed(key, born, now);
      ok := buckets[key].tokens >= 1.0;
      if ok {
        buckets := buckets[key := buckets[key].(tokens := buckets[key].tokens - 1.0)];
        allowed := allowed + 1;
      } else {
        rejected := rejected + 1;
      }
    }

    method GetAvailableTokens(key: string, born: real, now: real) returns (tokens: real)
      requires Valid()
      modifies this
      ensures Valid() && calls == old(calls) + [Peek(key, born, now)]
      ensures key in buckets && tokens == buckets[key].tokens && tokens <= limits.burst
      ensures Sane(limits, calls) ==> LeastLevel(limits, calls, |calls| - 1, tokens)
      ensures total == old(total) && allowed == old(allowed)
    {
      Appended(limits, calls, Peek(key, born, now));
      calls := calls + [Peek(key, born, now)];
      Refreshed(key, born, now);
      tokens := buckets[key].tokens;
      if Sane(limits, calls) { AvailableExactly(limits, calls, |calls| - 1); }
    }
  }
}

/** The sliding window (minidb/chaos/rate_limiter.py:127-187). The clock is read when the
    window is cleaned up and again when a permit is stamped. */
module SlidingWindow {
  datatype Limits = Limits(maxRequests: int, window: real)

  datatype Call = Acquire(key: string, read: real, stamp: real) | Query(key: string, read: real)

  type Windows = map<string, seq<real>>

  function DropOld(w: seq<real>, cutoff: real): seq<real> {
    if w != [] && w[0] < cutoff then DropOld(w[1..], cutoff) else w
  }

  function Fetch(ws: Windows, key: string): seq<real> {
    if key in ws then ws[key] else []
  }

  function Cleaned(c: Limits, ws: Windows, call: Call): seq<real> {
    DropOld(Fetch(ws, call.key), call.read - c.window)
  }

  predicate Grants(c: Limits, ws: Windows, call: Call) {
    call.Acquire? && |Cleaned(c, ws, call)| < c.maxRequests
  }

  function Step(c: Limits, ws: Windows, call: Call): Windows {
    ws[call.key := if Grants(c, ws, call) then Cleaned(c, ws, call) + [call.stamp] else Cleaned(c, ws, call)]
  }

  function State(c: Limits, calls: seq<Call>, i: nat): Windows
    requires i <= |calls|
  {
    if i == 0 then map[] else Step(c, State(c, calls, i - 1), calls[i - 1])
  }

  predicate Granted(c: Limits, calls: seq<Call>, i: nat)
    requires i < |calls|
  {
    Grants(c, State(c, calls, i), calls[i])
  }

  /** The stamps of all permits granted to the key by the first i calls. */
  function Stamps(c: Limits, calls: seq<Call>, key: string, i: nat): seq<real>
    requires i <= |calls|
  {
    if i == 0 then []
    else if calls[i - 1].key == key && Granted(c, calls, i - 1) then Stamps(c, calls, key, i - 1) + [calls[i - 1].stamp]
    else Stamps(c, calls, key, i - 1)
  }

  /** The clock never goes back from one reading to the next. */
  predicate Monotone(calls: seq<Call>) {
    && (forall i :: 0 <= i < |calls| && calls[i].Acquire? ==> calls[i].read <= calls[i].stamp)
    && (forall i, j :: 0 <= i < j < |calls| ==>
          calls[i].read <= calls[j].read && (calls[i].Acquire? ==> calls[i].stamp <= calls[j].read))
  }

  lemma {:induction false} DropTwice(w: seq<real>, c: real, d: real)
    requires c <= d
    ensures DropOld(DropOld(w, c), d) == DropOld(w, d)
  {
    if w != [] && w[0] < c { DropTwice(w[1..], c, d); }
  }

  lemma {:induction false} DropAppend(w: seq<real>, x: seq<real>, c: real)
    ensures DropOld(w + x, c) == if DropOld(w, c) != [] then DropOld(w, c) + x else DropOld(x, c)
  {
    if w == [] {
      assert w + x == x;
    } else if w[0] < c {
      DropAppend(w[1..], x, c);
      assert (w + x)[1..] == w[1..] + x;
    }
  }

  /** A call cleans the window of its key and adds its stamp if it is granted. */
  lemma WindowStep(c: Limits, calls: seq<Call>, i: nat)
    requires i < |calls|
    ensures var call := calls[i];
            var w := DropOld(Fetch(State(c, calls, i), call.key), call.read - c.window);
            Fetch(State(c, calls, i + 1), call.key) == if Granted(c, calls, i) then w + [call.stamp] else w
  {
    assert State(c, calls, i + 1) == Step(c, State(c, calls, i), calls[i]);
  }

  lemma OtherWindows(c: Limits, calls: seq<Call>, i: nat, key: string)
    requires i < |calls| && key != calls[i].key
    ensures Fetch(State(c, calls, i + 1), key) == Fetch(State(c, calls, i), key)
  {
    assert State(c, calls, i + 1) == Step(c, State(c, calls, i), calls[i]);
  }

  lemma CutAlike(w: seq<real>, stamps: seq<real>, added: seq<real>, c: real, d: real)
    requires c <= d && DropOld(w, d) == DropOld(stamps, d)
    ensures DropOld(DropOld(w, c) + added, d) == DropOld(stamps + added, d)
  {
    DropTwice(w, c, d);
    DropAppend(DropOld(w, c), added, d);
    DropAppend(stamps, added, d);
  }

  /** Cut at a later point than any so far, the kept stamps are all the granted ones. */
  lemma {:induction false} KeptStamps(c: Limits, calls: seq<Call>, key: string, i: nat, cutoff: real)
    requires i <= |calls| && forall j :: 0 <= j < i ==> calls[j].read - c.window <= cutoff
    ensures DropOld(Fetch(State(c, calls, i), key), cutoff) == DropOld(Stamps(c, calls, key, i), cutoff)
  {
    if i > 0 {
      KeptStamps(c, calls, key, i - 1, cutoff);
      if calls[i - 1].key == key {
        WindowStep(c, calls, i - 1);
        var granted := Granted(c, calls, i - 1);
        KeptOneMore(Fetch(State(c, calls, i - 1), key), Stamps(c, calls, key, i - 1),
                    calls[i - 1].read - c.window, cutoff,
                    granted, if granted then calls[i - 1].stamp else 0.0);
      } else {
        OtherWindows(c, calls, i - 1, key);
      }
    }
  }

  lemma KeptOneMore(w: seq<real>, stamps: seq<real>, c: real, d: real, granted: bool, stamp: real)
    requires c <= d && DropOld(w, d) == DropOld(stamps, d)
    ensures DropOld(if granted then DropOld(w, c) + [stamp] else DropOld(w, c), d)
            == DropOld(if granted then stamps + [stamp] else stamps, d)
  {
    if granted { CutAlike(w, stamps, [stamp], c, d); } else { DropTwice(w, c, d); }
  }

  // ------------------------------------------------------------------ the span bound

  function CountIn(stamps: seq<real>, a: real, z: real): nat {
    if stamps == [] then 0
    else CountIn(stamps[..|stamps| - 1], a, z) + if a <= stamps[|stamps| - 1] <= z then 1 else 0
  }

  lemma {:induction false} CountInAppend(s: seq<real>, x: real, a: real, z: real)
    ensures CountIn(s + [x], a, z) == CountIn(s, a, z) + if a <= x <= z then 1 else 0
  {
    assert (s + [x])[..|s|] == s;
  }

  lemma {:induction false} CountInLength(s: seq<real>, a: real, z: real)
    ensures CountIn(s, a, z) <= |s|
  {
    if s != [] { CountInLength(s[..|s| - 1], a, z); }
  }

  /** What is cut off lies before the span. */
  lemma {:induction false} CountAfterDrop(s: seq<real>, cutoff: real, a: real, z: real)
    requires cutoff <= a
    ensures CountIn(s, a, z) == CountIn(DropOld(s, cutoff), a, z)
  {
    if s != [] && s[0] < cutoff {
      CountWithoutFirst(s, a, z);
      CountAfterDrop(s[1..], cutoff, a, z);
    }
  }

  lemma {:induction false} CountWithoutFirst(s: seq<real>, a: real, z: real)
    requires s != [] && s[0] < a
    ensures CountIn(s, a, z) == CountIn(s[1..], a, z)
  {
    if |s| > 1 {
      CountWithoutFirst(s[..|s| - 1], a, z);
      assert s[..|s| - 1][1..] == s[1..][..|s| - 2];
    }
  }

  /** In every run with a monotone clock, for every key, no closed span of the window's
      length holds more than maxRequests granted permits. */
  lemma {:induction false} SpanBound(c: Limits, calls: seq<Call>, key: string, a: real, i: nat)
    requires Monotone(calls) && i <= |calls|
    ensures var granted := CountIn(Stamps(c, calls, key, i), a, a + c.window); granted == 0 || granted <= c.maxRequests
  {
    if i > 0 {
      var stamps := Stamps(c, calls, key, i - 1);
      SpanBound(c, calls, key, a, i - 1);
      if calls[i - 1].key == key && Granted(c, calls, i - 1) {
        CountInAppend(stamps, calls[i - 1].stamp, a, a + c.window);
        if a <= calls[i - 1].stamp <= a + c.window { FewBefore(c, calls, i - 1, a); }
      }
    }
  }

  /** A request is granted only if the span up to it has room. */
  lemma FewBefore(c: Limits, calls: seq<Call>, i: nat, a: real)
    requires Monotone(calls) && i < |calls| && Granted(c, calls, i) && calls[i].stamp <= a + c.window
    ensures CountIn(Stamps(c, calls, calls[i].key, i), a, a + c.window) < c.maxRequests
  {
    var stamps, cutoff := Stamps(c, calls, calls[i].key, i), calls[i].read - c.window;
    KeptStamps(c, calls, calls[i].key, i, cutoff);
    CountAfterDrop(stamps, cutoff, a, a + c.window);
    CountInLength(DropOld(stamps, cutoff), a, a + c.window);
  }

  // -------------------------------------------------------------------- exactness

  predicate Ascending(s: seq<real>) {
    forall i, j :: 0 <= i < j < |s| ==> s[i] <= s[j]
  }

  predicate AllAtMost(s: seq<real>, bound: real) {
    forall i :: 0 <= i < |s| ==> s[i] <= bound
  }

  lemma AscendAppend(s: seq<real>, x: real)
    requires Ascending(s) && AllAtMost(s, x)
    ensures Ascending(s + [x]) && AllAtMost(s + [x], x)
  {}

  lemma {:induction false} StampsAscend(c: Limits, calls: seq<Call>, key: string, i: nat, bound: real)
    requires Monotone(calls) && i <= |calls|
    requires forall j :: 0 <= j < i ==> calls[j].read <= bound && (calls[j].Acquire? ==> calls[j].stamp <= bound)
    ensures Ascending(Stamps(c, calls, key, i)) && AllAtMost(Stamps(c, calls, key, i), bound)
  {
    if i > 0 {
      var last := calls[i - 1];
      StampsAscend(c, calls, key, i - 1, last.read);
      if last.key == key && Granted(c, calls, i - 1) {
        AscendAppend(Stamps(c, calls, key, i - 1), last.stamp);
      }
    }
  }

  /** How many stamps are not before the cutoff. */
  function CountFrom(s: seq<real>, cutoff: real): nat {
    if s == [] then 0 else CountFrom(s[1..], cutoff) + if s[0] >= cutoff then 1 else 0
  }

  lemma {:induction false} CountFromAscending(s: seq<real>, cutoff: real)
    requires Ascending(s)
    ensures |DropOld(s, cutoff)| == CountFrom(s, cutoff)
  {
    if s != [] {
      CountFromAscending(s[1..], cutoff);
      if s[0] >= cutoff && |s| > 1 { assert s[1..][0] >= cutoff; }
    }
  }

  /** A request is granted exactly when fewer than maxRequests permits were stamped for its
      key within the window that ends at its reading of the clock. */
  lemma GrantedExactly(c: Limits, calls: seq<Call>, i: nat)
    requires Monotone(calls) && i < |calls| && calls[i].Acquire?
    ensures var call := calls[i];
            Granted(c, calls, i) <==> CountFrom(Stamps(c, calls, call.key, i), call.read - c.window) < c.maxRequests
  {
    CountExactly(c, calls, i);
  }

  /** A query shows how many permits were stamped within the window before it. */
  lemma CountExactly(c: Limits, calls: seq<Call>, i: nat)
    requires Monotone(calls) && i < |calls|
    ensures var call := calls[i];
            |Cleaned(c, State(c, calls, i), call)|
            == CountFrom(Stamps(c, calls, call.key, i), call.read - c.window)
  {
    var call := calls[i];
    KeptStamps(c, calls, call.key, i, call.read - c.window);
    StampsAscend(c, calls, call.key, i, call.read);
    CountFromAscending(Stamps(c, calls, call.key, i), call.read - c.window);
  }

  // --------------------------------------------------------------------- the class

  lemma {:induction false} StateOfPrefix(c: Limits, calls: seq<Call>, call: Call, i: nat)
    requires i <= |calls|
    ensures State(c, calls + [call], i) == State(c, calls, i)
  {
    if i > 0 { StateOfPrefix(c, calls, call, i - 1); }
  }

  lemma Appended(c: Limits, calls: seq<Call>, call: Call)
    ensures var longer := calls + [call];
            && State(c, longer, |longer|) == Step(c, State(c, calls, |calls|), call)
            && (Granted(c, longer, |calls|) <==> Grants(c, State(c, calls, |calls|), call))
  {
    StateOfPrefix(c, calls, call, |calls|);
  }

  lemma QueryCounts(c: Limits, calls: seq<Call>, call: Call)
    requires Monotone(calls + [call])
    ensures |DropOld(Fetch(State(c, calls, |calls|), call.key), call.read - c.window)|
            == CountFrom(Stamps(c, calls + [call], call.key, |calls|), call.read - c.window)
  {
    StateOfPrefix(c, calls, call, |calls|);
    CountExactly(c, calls + [call], |calls|);
  }

  class SlidingWindowLimiter {
    const limits: Limits
    var windows: Windows
    var total: nat
    var allowed: nat
    var rejected: nat
    /** Every call so far. */
    ghost var calls: seq<Call>

    constructor (maxRequests: int, window: real)
      ensures Valid() && limits == Limits(maxRequests, window) && calls == [] && total == allowed == rejected == 0
    {
      limits := Limits(maxRequests, window);
      windows, calls := map[], [];
      total, allowed, rejected := 0, 0, 0;
    }

    ghost predicate Valid()
      reads this
    {
      windows == State(limits, calls, |calls|) && total == allowed + rejected
    }

    /** Pops from the front while the oldest stamp is before the cutoff. */
    method Cleanup(key: string, read: real)
      modifies this`windows
      ensures windows == old(windows)[key := DropOld(Fetch(old(windows), key), read - limits.window)]
    {
      var window := Fetch(windows, key);
      var cutoff := read - limits.window;
      while window != [] && window[0] < cutoff
        invariant DropOld(window, cutoff) == DropOld(Fetch(windows, key), cutoff)
        decreases |window|
      {
        window := window[1..];
      }
      windows := windows[key := window];
    }

    method TryAcquire(key: string, read: real, stamp: real) returns (ok: bool)
      requires Valid()
      modifies this
      ensures Valid() && calls == old(calls) + [Acquire(key, read, stamp)]
      ensures ok == Granted(limits, calls, |calls| - 1)
      ensures total == old(total) + 1 && allowed == old(allowed) + if ok then 1 else 0
    {
      ghost var call := Acquire(key, read, stamp);
      Appended(limits, calls, call);
      calls := calls + [call];
      total := total + 1;
      ok := Admit(key, read, stamp, call);
      if ok { allowed := allowed + 1; } else { rejected := rejected + 1; }
    }

    method Admit(key: string, read: real, stamp: real, ghost call: Call) returns (ok: bool)
      requires call == Acquire(key, read, stamp)
      modifies this`windows
      ensures ok == Grants(limits, old(windows), call) && windows == Step(limits, old(windows), call)
    {
      Cleanup(key, read);
      ok := |windows[key]| < limits.maxRequests;
      if ok { windows := windows[key := windows[key] + [stamp]]; }
    }

    method GetCurrentCount(key: string, read: real) returns (count: nat)
      requires Valid()
      modifies this
      ensures Valid() && calls == old(calls) + [Query(key, read)]
      ensures key in windows && count == |windows[key]| && total == old(total) && allowed == old(allowed)
      ensures Monotone(calls) ==> count == CountFrom(Stamps(limits, calls, key, |calls| - 1), read - limits.window)
    {
      Appended(limits, calls, Query(key, read));
      if Monotone(calls + [Query(key, read)]) { QueryCounts(limits, calls, Query(key, read)); }
      calls := calls + [Query(key, read)];
      Cleanup(key, read);
      count := |windows[key]|;
    }
  }
}
